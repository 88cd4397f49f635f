/**
 * The player record and the GameManager state holder: the list of players and
 * the game's three settings (credits per buy-in, number of players, total pot).
 */
module Game {
  import opened Wrappers
  import opened Text

  /** A player's UUID; only its identity matters. */
  datatype PlayerId = PlayerId(raw: nat)

  datatype Player = Player(id: PlayerId, name: string, buyIns: int, totalCredits: real, score: int)

  /** `Player(name:buyIns:totalCredits:score:)` with its default arguments. */
  function NewPlayer(id: PlayerId, name: string, buyIns: int := 1, totalCredits: real := 0.0, score: int := 0): Player {
    Player(id, name, buyIns, totalCredits, score)
  }

  const DefaultNumberOfPlayers: int := 5
  const DefaultCreditsPerBuyIn: real := 200.0

  /** The twelve names `generateDefaultPlayers` hands out, in order. */
  const DefaultNames: seq<string> :=
    ["Player 1", "Player 2", "Player 3", "Player 4", "Player 5", "Player 6",
     "Player 7", "Player 8", "Player 9", "Player 10", "Player 11", "Player 12"]

  // ---------------------------------------------------------------------------
  // Settings arithmetic

  /** The pot implied by a buy-in and a player count. */
  function PotFor(creditsPerBuyIn: real, numberOfPlayers: int): real {
    creditsPerBuyIn * numberOfPlayers as real
  }

  /** A pot split evenly over the players, or 0 when there are none. */
  function ShareOf(pot: real, numberOfPlayers: int): (r: real)
    ensures numberOfPlayers > 0 ==> r * numberOfPlayers as real == pot
    ensures numberOfPlayers <= 0 ==> r == 0.0
  {
    if numberOfPlayers > 0 then pot / numberOfPlayers as real else 0.0
  }

  /** Splitting the pot recovers the buy-in it was computed from. */
  lemma ShareOfPotFor(creditsPerBuyIn: real, numberOfPlayers: int)
    requires numberOfPlayers > 0
    ensures ShareOf(PotFor(creditsPerBuyIn, numberOfPlayers), numberOfPlayers) == creditsPerBuyIn
  {
    var n := numberOfPlayers as real;
    var r := ShareOf(creditsPerBuyIn * n, numberOfPlayers);
    assert r * n == creditsPerBuyIn * n;
  }

  /** What `buyIns` buy-ins are worth. */
  function BuyInCredits(buyIns: int, creditsPerBuyIn: real): real {
    buyIns as real * creditsPerBuyIn
  }

  // ---------------------------------------------------------------------------
  // Views of a player list

  predicate IdsDistinct(ps: seq<Player>) {
    forall i, j :: 0 <= i < j < |ps| ==> ps[i].id != ps[j].id
  }

  /** No id occurs twice: what a run of fresh `UUID()`s gives. */
  predicate Distinct(ids: seq<PlayerId>) {
    forall i, j :: 0 <= i < j < |ids| ==> ids[i] != ids[j]
  }

  /** The ids on a list. */
  function IdSet(ps: seq<Player>): (r: set<PlayerId>)
    ensures forall j :: 0 <= j < |ps| ==> ps[j].id in r
  {
    if ps == [] then {} else IdSet(ps[..|ps| - 1]) + {ps[|ps| - 1].id}
  }

  /** Every id in the set belongs to some player on the list. */
  lemma {:induction false} IdSetMember(ps: seq<Player>, id: PlayerId)
    requires id in IdSet(ps)
    ensures exists j :: 0 <= j < |ps| && ps[j].id == id
  {
    var n := |ps|;
    if ps[n - 1].id != id {
      IdSetMember(ps[..n - 1], id);
      var j :| 0 <= j < n - 1 && ps[..n - 1][j].id == id;
      assert ps[j].id == id;
    }
  }

  /** `players.firstIndex(where: { $0.id == id })`. */
  function FindIndex(ps: seq<Player>, id: PlayerId): (r: Option<nat>)
    ensures r.Some? ==> r.value < |ps| && ps[r.value].id == id
                        && forall k :: 0 <= k < r.value ==> ps[k].id != id
    ensures r.None? ==> forall k :: 0 <= k < |ps| ==> ps[k].id != id
  {
    if ps == [] then None
    else if ps[0].id == id then Some(0)
    else match FindIndex(ps[1..], id)
      case None => None
      case Some(i) => Some(i + 1)
  }

  lemma FindIndexDistinct(ps: seq<Player>, k: nat)
    requires IdsDistinct(ps) && k < |ps|
    ensures FindIndex(ps, ps[k].id) == Some(k)
  {
  }

  /** `players.reduce(0) { $0 + $1.totalCredits }`: the credits of all players, summed left to right. */
  function SumCredits(ps: seq<Player>): real {
    if ps == [] then 0.0 else SumCredits(ps[..|ps| - 1]) + ps[|ps| - 1].totalCredits
  }

  function SumBuyIns(ps: seq<Player>): int {
    if ps == [] then 0 else SumBuyIns(ps[..|ps| - 1]) + ps[|ps| - 1].buyIns
  }

  /** The credit total of two lists laid end to end is the sum of their totals. */
  lemma {:induction false} SumCreditsAppend(a: seq<Player>, b: seq<Player>)
    ensures SumCredits(a + b) == SumCredits(a) + SumCredits(b)
  {
    if b != [] {
      assert (a + b)[..|a + b| - 1] == a + b[..|b| - 1];
      SumCreditsAppend(a, b[..|b| - 1]);
    } else {
      assert a + b == a;
    }
  }

  // ---------------------------------------------------------------------------
  // Field updates by id

  /** The one-field (or, for buy-ins, two-field) writes the update methods make. */
  datatype PlayerEdit =
    | Rename(name: string)
    | SetBuyIns(buyIns: int, credits: real)
    | SetCredits(credits: real)
    | SetScore(score: int)

  function Apply(p: Player, e: PlayerEdit): Player {
    match e
    case Rename(n) => p.(name := n)
    case SetBuyIns(b, c) => p.(buyIns := b, totalCredits := c)
    case SetCredits(c) => p.(totalCredits := c)
    case SetScore(s) => p.(score := s)
  }

  /** Applies `e` to the first player whose id is `id`: length, order and ids
      are kept, every other player is unchanged, and an unknown id changes nothing. */
  function EditFirst(ps: seq<Player>, id: PlayerId, e: PlayerEdit): (r: seq<Player>)
    ensures |r| == |ps|
    ensures forall j :: 0 <= j < |ps| ==> r[j].id == ps[j].id
    ensures (forall j :: 0 <= j < |ps| ==> ps[j].id != id) ==> r == ps
    ensures forall j :: 0 <= j < |ps| && ps[j].id == id && (forall k :: 0 <= k < j ==> ps[k].id != id) ==>
                 r[j] == Apply(ps[j], e)
    ensures forall j :: 0 <= j < |ps| && (ps[j].id != id || exists k :: 0 <= k < j && ps[k].id == id) ==>
                 r[j] == ps[j]
  {
    match FindIndex(ps, id)
    case None => ps
    case Some(i) => ps[i := Apply(ps[i], e)]
  }

  /** An edit by id keeps the ids distinct. */
  lemma EditFirstKeepsIdsDistinct(ps: seq<Player>, id: PlayerId, e: PlayerEdit)
    requires IdsDistinct(ps)
    ensures IdsDistinct(EditFirst(ps, id, e))
  {
    var r := EditFirst(ps, id, e);
    assert forall j :: 0 <= j < |ps| ==> r[j].id == ps[j].id;
  }

  /** Appending a player whose id is new keeps the ids distinct. */
  lemma AppendFreshKeepsIdsDistinct(ps: seq<Player>, p: Player)
    requires IdsDistinct(ps) && p.id !in IdSet(ps)
    ensures IdsDistinct(ps + [p])
  {
    var r := ps + [p];
    forall i, j | 0 <= i < j < |r| ensures r[i].id != r[j].id {
      if j == |ps| {
        assert r[i] == ps[i];
      }
    }
  }

  /** With distinct ids, exactly the player carrying `id` is edited. */
  lemma EditFirstDistinct(ps: seq<Player>, id: PlayerId, e: PlayerEdit, j: nat)
    requires IdsDistinct(ps) && j < |ps|
    ensures EditFirst(ps, id, e)[j] == if ps[j].id == id then Apply(ps[j], e) else ps[j]
  {
  }

  /** Editing a player's credits moves the total by exactly the change in that player's credits. */
  lemma {:induction false} SumCreditsEditCredits(ps: seq<Player>, i: nat, c: real)
    requires i < |ps|
    ensures SumCredits(ps[i := ps[i].(totalCredits := c)]) == SumCredits(ps) - ps[i].totalCredits + c
  {
    var q := ps[i := ps[i].(totalCredits := c)];
    assert ps == ps[..i] + [ps[i]] + ps[i + 1..];
    assert q == ps[..i] + [q[i]] + ps[i + 1..];
    SumCreditsAppend(ps[..i] + [ps[i]], ps[i + 1..]);
    SumCreditsAppend(ps[..i] + [q[i]], ps[i + 1..]);
    SumCreditsAppend(ps[..i], [ps[i]]);
    SumCreditsAppend(ps[..i], [q[i]]);
    assert SumCredits([ps[i]]) == ps[i].totalCredits by { assert [ps[i]][..0] == []; }
    assert SumCredits([q[i]]) == c by { assert [q[i]][..0] == []; }
  }

  // ---------------------------------------------------------------------------
  // Whole-list rebuilds

  /** The players `generateDefaultPlayers` creates, given the fresh ids. */
  function DefaultRoster(ids: seq<PlayerId>, creditsPerBuyIn: real): (r: seq<Player>)
    requires |ids| <= |DefaultNames|
    ensures |r| == |ids|
  {
    seq(|ids|, i requires 0 <= i < |ids| => NewPlayer(ids[i], DefaultNames[i], 1, creditsPerBuyIn, 0))
  }

  /** Distinct fresh ids give a roster with distinct ids. */
  lemma DefaultRosterIdsDistinct(ids: seq<PlayerId>, creditsPerBuyIn: real)
    requires |ids| <= |DefaultNames| && Distinct(ids)
    ensures IdsDistinct(DefaultRoster(ids, creditsPerBuyIn))
  {
  }

  /** The players `startNewGameWithSameSettings` leaves: back to their buy-in credits, score 0. */
  function Restarted(ps: seq<Player>, creditsPerBuyIn: real): (r: seq<Player>)
    ensures |r| == |ps|
  {
    seq(|ps|, i requires 0 <= i < |ps| =>
      ps[i].(totalCredits := BuyInCredits(ps[i].buyIns, creditsPerBuyIn), score := 0))
  }

  /** The i-th default name is "Player " followed by i + 1. */
  lemma DefaultNameSpelled(i: nat)
    requires i < |DefaultNames|
    ensures DefaultNames[i] == "Player " + NatToString(i + 1)
  {
    if i < 9 {
      assert NatToString(i + 1) == [DigitChar(i + 1)];
    } else {
      assert NatToString(i + 1) == NatToString(1) + [DigitChar((i + 1) % 10)];
    }
  }

  /** No two default names are equal, even ignoring case. */
  lemma DefaultNamesDistinct(i: nat, j: nat)
    requires i < |DefaultNames| && j < |DefaultNames| && i != j
    ensures Lower(DefaultNames[i]) != Lower(DefaultNames[j])
  {
    var prefix := "Player ";
    DefaultNameSpelled(i);
    DefaultNameSpelled(j);
    LowerAppend(prefix, NatToString(i + 1));
    LowerAppend(prefix, NatToString(j + 1));
    LowerOfDigits(NatToString(i + 1));
    LowerOfDigits(NatToString(j + 1));
    if Lower(DefaultNames[i]) == Lower(DefaultNames[j]) {
      var a := Lower(prefix) + NatToString(i + 1);
      var b := Lower(prefix) + NatToString(j + 1);
      assert a[|prefix|..] == NatToString(i + 1);
      assert b[|prefix|..] == NatToString(j + 1);
      NatToStringInjective(i + 1, j + 1);
    }
  }

  /** The default roster has one player per id, all with one buy-in, and its
      credits add up to the buy-in times the number of players. */
  lemma {:induction false} DefaultRosterCredits(ids: seq<PlayerId>, creditsPerBuyIn: real)
    requires |ids| <= |DefaultNames|
    ensures SumCredits(DefaultRoster(ids, creditsPerBuyIn)) == PotFor(creditsPerBuyIn, |ids|)
    ensures SumBuyIns(DefaultRoster(ids, creditsPerBuyIn)) == |ids|
  {
    var r := DefaultRoster(ids, creditsPerBuyIn);
    if ids != [] {
      var n := |ids|;
      assert r[..n - 1] == DefaultRoster(ids[..n - 1], creditsPerBuyIn);
      DefaultRosterCredits(ids[..n - 1], creditsPerBuyIn);
      assert creditsPerBuyIn * (n - 1) as real + creditsPerBuyIn == creditsPerBuyIn * n as real;
    }
  }

  /** After a restart every player holds exactly their buy-ins' worth, so the
      credits add up to the buy-in times the total number of buy-ins. */
  lemma {:induction false} RestartedCredits(ps: seq<Player>, creditsPerBuyIn: real)
    ensures SumCredits(Restarted(ps, creditsPerBuyIn)) == BuyInCredits(SumBuyIns(ps), creditsPerBuyIn)
  {
    if ps != [] {
      var n := |ps|;
      var r := Restarted(ps, creditsPerBuyIn);
      var r' := Restarted(ps[..n - 1], creditsPerBuyIn);
      assert forall k :: 0 <= k < n - 1 ==> r[k] == r'[k];
      assert r[..n - 1] == r';
      RestartedCredits(ps[..n - 1], creditsPerBuyIn);
      var b := ps[n - 1].buyIns as real;
      var rest := SumBuyIns(ps[..n - 1]) as real;
      assert rest * creditsPerBuyIn + b * creditsPerBuyIn == (rest + b) * creditsPerBuyIn;
    }
  }

  // ---------------------------------------------------------------------------
  // The state holder

  class GameManager {
    var players: seq<Player>
    var totalPotCredits: real
    var numberOfPlayers: int
    var creditsPerBuyIn: real

    /** Every player carries an id of its own, as each `Player` gets a fresh `UUID()`. */
    predicate Valid()
      reads this
    {
      IdsDistinct(players)
    }

    /** The relation the settings screen keeps: pot = buy-in × number of players. */
    predicate PotConsistent()
      reads this
    {
      totalPotCredits == PotFor(creditsPerBuyIn, numberOfPlayers)
    }

    /** The state of a freshly made manager. */
    predicate IsInitial()
      reads this
    {
      players == [] && numberOfPlayers == DefaultNumberOfPlayers
      && creditsPerBuyIn == DefaultCreditsPerBuyIn && totalPotCredits == 1000.0
    }

    constructor ()
      ensures Valid() && IsInitial() && PotConsistent()
    {
      players := [];
      totalPotCredits := 1000.0;
      numberOfPlayers := DefaultNumberOfPlayers;
      creditsPerBuyIn := DefaultCreditsPerBuyIn;
      new;
      UpdateTotalPotCredits();
    }

    /** `creditsPerPlayer`: the pot split evenly, 0 when there are no players. */
    function CreditsPerPlayer(): (r: real)
      reads this
      ensures numberOfPlayers > 0 ==> r * numberOfPlayers as real == totalPotCredits
      ensures numberOfPlayers <= 0 ==> r == 0.0
      ensures numberOfPlayers > 0 && PotConsistent() ==> r == creditsPerBuyIn
    {
      var r := ShareOf(totalPotCredits, numberOfPlayers);
      assert numberOfPlayers > 0 && PotConsistent() ==> r == creditsPerBuyIn by {
        if numberOfPlayers > 0 && PotConsistent() {
          ShareOfPotFor(creditsPerBuyIn, numberOfPlayers);
        }
      }
      r
    }

    method UpdateCreditsPerBuyIn()
      modifies this`creditsPerBuyIn
      ensures creditsPerBuyIn == ShareOf(totalPotCredits, numberOfPlayers)
      ensures numberOfPlayers > 0 ==> PotConsistent()
    {
      creditsPerBuyIn := if numberOfPlayers > 0 then totalPotCredits / numberOfPlayers as real else 0.0;
    }

    method UpdateTotalPotCredits()
      modifies this`totalPotCredits
      ensures PotConsistent()
    {
      totalPotCredits := creditsPerBuyIn * numberOfPlayers as real;
    }

    /** Replaces the list with "Player 1" .. "Player n". Indexing the twelve-name
        table traps for n > 12, and `0..<n` traps for n < 0. */
    method GenerateDefaultPlayers(ids: seq<PlayerId>)
      requires 0 <= numberOfPlayers <= |DefaultNames|
      requires |ids| == numberOfPlayers && Distinct(ids)
      modifies this`players
      ensures players == DefaultRoster(ids, creditsPerBuyIn)
      ensures Valid()
    {
      players := [];
      var i := 0;
      while i < numberOfPlayers
        invariant 0 <= i <= numberOfPlayers
        invariant players == DefaultRoster(ids[..i], creditsPerBuyIn)
      {
        var newPlayer := NewPlayer(ids[i], DefaultNames[i], 1, creditsPerBuyIn, 0);
        players := players + [newPlayer];
        i := i + 1;
      }
      assert ids[..i] == ids;
      DefaultRosterIdsDistinct(ids, creditsPerBuyIn);
    }

    /** Appends a player with the name exactly as given; no validation here. */
    method AddPlayer(id: PlayerId, name: string)
      requires Valid() && id !in IdSet(players)
      modifies this`players
      ensures players == old(players) + [NewPlayer(id, name, 1, creditsPerBuyIn, 0)]
      ensures Valid()
    {
      var newPlayer := NewPlayer(id, name, 1, creditsPerBuyIn, 0);
      AppendFreshKeepsIdsDistinct(players, newPlayer);
      players := players + [newPlayer];
    }

    /** Deletes the player at `index`, keeping the others in order; an index past
        the end is ignored. (A negative index traps in Swift.) */
    method RemovePlayer(index: nat)
      requires Valid()
      modifies this`players
      ensures index < |old(players)| ==> players == old(players)[..index] + old(players)[index + 1..]
      ensures index >= |old(players)| ==> players == old(players)
      ensures Valid()
    {
      if index < |players| {
        ghost var before := players;
        players := players[..index] + players[index + 1..];
        assert forall j :: 0 <= j < |players| ==> players[j] == before[if j < index then j else j + 1];
      }
    }

    method UpdatePlayerName(playerId: PlayerId, newName: string)
      requires Valid()
      modifies this`players
      ensures players == EditFirst(old(players), playerId, Rename(newName))
      ensures Valid()
    {
      EditFirstKeepsIdsDistinct(players, playerId, Rename(newName));
      match FindIndex(players, playerId)
      case Some(index) =>
        players := players[index := players[index].(name := newName)];
      case None =>
    }

    /** Sets the buy-ins and, with them, the credits: buy-ins × credits per buy-in. */
    method UpdatePlayerBuyIns(playerId: PlayerId, newBuyIns: int)
      requires Valid()
      modifies this`players
      ensures players == EditFirst(old(players), playerId, SetBuyIns(newBuyIns, BuyInCredits(newBuyIns, creditsPerBuyIn)))
      ensures Valid()
    {
      var credits := BuyInCredits(newBuyIns, creditsPerBuyIn);
      EditFirstKeepsIdsDistinct(players, playerId, SetBuyIns(newBuyIns, credits));
      match FindIndex(players, playerId)
      case Some(index) =>
        players := players[index := players[index].(buyIns := newBuyIns, totalCredits := credits)];
      case None =>
    }

    method UpdatePlayerCredits(playerId: PlayerId, newCredits: real)
      requires Valid()
      modifies this`players
      ensures players == EditFirst(old(players), playerId, SetCredits(newCredits))
      ensures Valid()
    {
      EditFirstKeepsIdsDistinct(players, playerId, SetCredits(newCredits));
      match FindIndex(players, playerId)
      case Some(index) =>
        players := players[index := players[index].(totalCredits := newCredits)];
      case None =>
    }

    method UpdatePlayerScore(playerId: PlayerId, newScore: int)
      requires Valid()
      modifies this`players
      ensures players == EditFirst(old(players), playerId, SetScore(newScore))
      ensures Valid()
    {
      EditFirstKeepsIdsDistinct(players, playerId, SetScore(newScore));
      match FindIndex(players, playerId)
      case Some(index) =>
        players := players[index := players[index].(score := newScore)];
      case None =>
    }

    /** `getTotalPotInCredits()`. */
    function GetTotalPotInCredits(): real
      reads this
    {
      SumCredits(players)
    }

    /** Empties the list and restores the default settings and pot. */
    method ResetGame()
      modifies this
      ensures Valid() && IsInitial() && PotConsistent()
    {
      players := [];
      numberOfPlayers := DefaultNumberOfPlayers;
      creditsPerBuyIn := DefaultCreditsPerBuyIn;
      UpdateTotalPotCredits();
    }

    /** Gives every player back their buy-ins' worth of credits and a score of 0,
        keeping settings, names and buy-ins, and recomputes the pot. */
    method StartNewGameWithSameSettings()
      requires Valid()
      modifies this`players, this`totalPotCredits
      ensures players == Restarted(old(players), creditsPerBuyIn)
      ensures PotConsistent() && Valid()
    {
      var currentBuyIn := creditsPerBuyIn;
      var i := 0;
      while i < |players|
        invariant 0 <= i <= |players| == |old(players)|
        invariant forall j :: 0 <= j < i ==> players[j] == Restarted(old(players), currentBuyIn)[j]
        invariant forall j :: i <= j < |players| ==> players[j] == old(players)[j]
      {
        players := players[i := players[i].(totalCredits := BuyInCredits(players[i].buyIns, currentBuyIn))];
        players := players[i := players[i].(score := 0)];
        i := i + 1;
      }
      UpdateTotalPotCredits();
    }
  }
}
