/**
 * The end-of-game screen: one text entry of final credits per player, the
 * check that gates the Finish button, and the commit of the entries into the
 * manager.
 */
module GameEnd {
  import opened Wrappers
  import opened Text
  import opened Game

  /** `finalCredits: [UUID: String]`. */
  type Entries = map<PlayerId, string>

  /** What one entry adds to the total: its number, or nothing when it does not parse. */
  function EntryValue(s: string): real {
    match ParseNumber(s)
    case Some(v) => v
    case None => 0.0
  }

  /** `totalFinalCredits`: the numbers among all the entries' values, summed.
      A dictionary has no order, so the sum is taken over a chosen key first. */
  ghost function TotalFinalCredits(m: Entries): real
    decreases |m|
  {
    if m == map[] then 0.0
    else
      var k :| k in m;
      assert |m - {k}| < |m| by { assert (m - {k}).Keys == m.Keys - {k}; }
      EntryValue(m[k]) + TotalFinalCredits(m - {k})
  }

  /** The total does not depend on which key is taken first. */
  lemma TotalRemoveKey(m: Entries, k: PlayerId)
    requires k in m
    ensures TotalFinalCredits(m) == EntryValue(m[k]) + TotalFinalCredits(m - {k})
    decreases |m|
  {
    var j :| j in m && TotalFinalCredits(m) == EntryValue(m[j]) + TotalFinalCredits(m - {j});
    if j != k {
      assert (m - {j}).Keys == m.Keys - {j};
      assert (m - {k}).Keys == m.Keys - {k};
      TotalRemoveKey(m - {j}, k);
      TotalRemoveKey(m - {k}, j);
      assert m - {j} - {k} == m - {k} - {j};
    }
  }

  /** A player has an entry, it is not empty, and it parses as a number. */
  predicate HasNumericEntry(m: Entries, id: PlayerId) {
    id in m && m[id] != "" && ParseNumber(m[id]).Some?
  }

  predicate AllEntered(ps: seq<Player>, m: Entries) {
    forall i :: 0 <= i < |ps| ==> HasNumericEntry(m, ps[i].id)
  }

  /** `isFinishEnabled`: every player has a numeric entry and the entries add up
      to the pot, to within 0.01. */
  ghost predicate FinishEnabled(ps: seq<Player>, m: Entries, pot: real) {
    AllEntered(ps, m) && Abs(TotalFinalCredits(m) - pot) < 0.01
  }

  /** The Status cell: a match, or how many whole credits the entries are off by. */
  ghost function StatusText(ps: seq<Player>, m: Entries, pot: real): (r: string)
    ensures r == "\U{2713} Match" <==> FinishEnabled(ps, m, pot)
    ensures !FinishEnabled(ps, m, pot) ==>
              |r| > 6 && ParseNumber(r[2..|r| - 4]) == Some(Trunc(Abs(TotalFinalCredits(m) - pot)) as real)
  {
    if FinishEnabled(ps, m, pot) then "\U{2713} Match"
    else
      var gap := Trunc(Abs(TotalFinalCredits(m) - pot));
      var r := "\U{2717} " + IntToString(gap) + " off";
      assert r[2..|r| - 4] == IntToString(gap);
      ParseNumberOfIntToString(gap);
      assert r[0] != "\U{2713} Match"[0];
      r
  }

  /** The text `onAppear` puts in a player's entry: the player's buy-ins' worth,
      truncated to whole credits. */
  function Seed(p: Player, creditsPerBuyIn: real): string {
    IntToString(Trunc(BuyInCredits(p.buyIns, creditsPerBuyIn)))
  }

  /** A seeded entry is numeric and reads back as the truncated buy-in worth. */
  lemma SeedIsNumeric(p: Player, creditsPerBuyIn: real)
    ensures Seed(p, creditsPerBuyIn) != ""
    ensures ParseNumber(Seed(p, creditsPerBuyIn)) == Some(Trunc(BuyInCredits(p.buyIns, creditsPerBuyIn)) as real)
  {
    ParseNumberOfIntToString(Trunc(BuyInCredits(p.buyIns, creditsPerBuyIn)));
  }

  /** One player after Finish: the parsed entry becomes the credits; without a
      numeric entry the player is untouched. */
  function CommitFinal(p: Player, m: Entries): (r: Player)
    ensures r.id == p.id && r.name == p.name && r.buyIns == p.buyIns && r.score == p.score
  {
    if p.id in m && ParseNumber(m[p.id]).Some? then p.(totalCredits := ParseNumber(m[p.id]).value) else p
  }

  /** A player with a numeric entry ends up with exactly what that entry adds to the total. */
  lemma CommitFinalTakesEntry(p: Player, m: Entries)
    requires HasNumericEntry(m, p.id)
    ensures CommitFinal(p, m).totalCredits == EntryValue(m[p.id])
  {
  }

  function CommitFinals(ps: seq<Player>, m: Entries): (r: seq<Player>)
    ensures |r| == |ps|
  {
    seq(|ps|, i requires 0 <= i < |ps| => CommitFinal(ps[i], m))
  }

  /** Committing keeps every player's id, in order. */
  lemma CommitFinalsIds(ps: seq<Player>, m: Entries)
    ensures |CommitFinals(ps, m)| == |ps|
    ensures forall j :: 0 <= j < |ps| ==> CommitFinals(ps, m)[j].id == ps[j].id
  {
  }

  lemma CommitFinalsAgree(ps: seq<Player>, m: Entries, m': Entries)
    requires forall i :: 0 <= i < |ps| ==> (ps[i].id in m <==> ps[i].id in m')
    requires forall i :: 0 <= i < |ps| && ps[i].id in m ==> m[ps[i].id] == m'[ps[i].id]
    ensures CommitFinals(ps, m) == CommitFinals(ps, m')
  {
  }

  /** Removing an entry no player carries keeps every player entered. */
  lemma EnteredWithout(ps: seq<Player>, m: Entries, k: PlayerId)
    requires AllEntered(ps, m)
    requires forall i :: 0 <= i < |ps| ==> ps[i].id != k
    ensures AllEntered(ps, m - {k})
  {
    forall i | 0 <= i < |ps| ensures HasNumericEntry(m - {k}, ps[i].id) {
      assert HasNumericEntry(m, ps[i].id);
      assert (m - {k})[ps[i].id] == m[ps[i].id];
    }
  }

  /** Dropping the last player's entry leaves exactly the entries of the others. */
  lemma EntriesOfInit(ps: seq<Player>, m: Entries)
    requires ps != [] && IdsDistinct(ps) && AllEntered(ps, m) && m.Keys == IdSet(ps)
    ensures var init, m' := ps[..|ps| - 1], m - {ps[|ps| - 1].id};
            IdsDistinct(init) && AllEntered(init, m') && m'.Keys == IdSet(init)
            && CommitFinals(init, m') == CommitFinals(init, m)
  {
    var n := |ps|;
    var init, last := ps[..n - 1], ps[n - 1];
    var m' := m - {last.id};
    assert forall i :: 0 <= i < |init| ==> init[i] == ps[i] && init[i].id != last.id;
    if last.id in IdSet(init) {
      IdSetMember(init, last.id);
    }
    assert AllEntered(init, m) by {
      forall i | 0 <= i < |init| ensures HasNumericEntry(m, init[i].id) {
        assert HasNumericEntry(m, ps[i].id);
      }
    }
    EnteredWithout(init, m, last.id);
    CommitFinalsAgree(init, m, m');
  }

  /** With distinct ids, an entry for every player and no others, committing
      makes the players' credits add up to exactly the entries' total. */
  lemma {:induction false} CommitSumsEntries(ps: seq<Player>, m: Entries)
    requires IdsDistinct(ps) && AllEntered(ps, m) && m.Keys == IdSet(ps)
    ensures SumCredits(CommitFinals(ps, m)) == TotalFinalCredits(m)
  {
    if ps == [] {
      assert m.Keys == {};
      assert m == map[];
    } else {
      var n := |ps|;
      var init, last := ps[..n - 1], ps[n - 1];
      var m' := m - {last.id};
      EntriesOfInit(ps, m);
      CommitSumsEntries(init, m');
      var c := CommitFinals(ps, m);
      assert c[..n - 1] == CommitFinals(init, m);
      assert HasNumericEntry(m, last.id);
      assert c[n - 1].totalCredits == EntryValue(m[last.id]);
      TotalRemoveKey(m, last.id);
    }
  }

  /** The property the Finish gate is there for: once the players' credits are
      replaced by entries that passed the gate, they add up to the pot within 0.01. */
  lemma FinishBalancesPot(ps: seq<Player>, m: Entries, pot: real)
    requires IdsDistinct(ps) && m.Keys <= IdSet(ps)
    requires FinishEnabled(ps, m, pot)
    ensures Abs(SumCredits(CommitFinals(ps, m)) - pot) < 0.01
  {
    forall id | id in IdSet(ps) ensures id in m {
      IdSetMember(ps, id);
    }
    CommitSumsEntries(ps, m);
  }

  /** The entries after `onAppear` has walked the players in order, each one's
      entry set to its seed. */
  function SeedEntries(m: Entries, ps: seq<Player>, creditsPerBuyIn: real): Entries
    decreases |ps|
  {
    if ps == [] then m
    else SeedEntries(m, ps[..|ps| - 1], creditsPerBuyIn)[ps[|ps| - 1].id := Seed(ps[|ps| - 1], creditsPerBuyIn)]
  }

  /** Seeding adds exactly the players' ids to the keys. */
  lemma {:induction false} SeedEntriesKeys(m: Entries, ps: seq<Player>, creditsPerBuyIn: real)
    ensures SeedEntries(m, ps, creditsPerBuyIn).Keys == m.Keys + IdSet(ps)
    decreases |ps|
  {
    if ps != [] {
      SeedEntriesKeys(m, ps[..|ps| - 1], creditsPerBuyIn);
    }
  }

  /** An entry for someone not on the list is left as it was. */
  lemma {:induction false} SeedEntriesKeepsOthers(m: Entries, ps: seq<Player>, creditsPerBuyIn: real, k: PlayerId)
    requires k in m && k !in IdSet(ps)
    ensures k in SeedEntries(m, ps, creditsPerBuyIn) && SeedEntries(m, ps, creditsPerBuyIn)[k] == m[k]
    decreases |ps|
  {
    if ps != [] {
      SeedEntriesKeepsOthers(m, ps[..|ps| - 1], creditsPerBuyIn, k);
    }
  }

  /** After seeding every player has a numeric entry (ids need not be distinct). */
  lemma {:induction false} SeedEntriesEntered(m: Entries, ps: seq<Player>, creditsPerBuyIn: real)
    ensures AllEntered(ps, SeedEntries(m, ps, creditsPerBuyIn))
    decreases |ps|
  {
    if ps != [] {
      var n := |ps|;
      var init, last := ps[..n - 1], ps[n - 1];
      SeedEntriesEntered(m, init, creditsPerBuyIn);
      SeedIsNumeric(last, creditsPerBuyIn);
      var r := SeedEntries(m, ps, creditsPerBuyIn);
      forall j | 0 <= j < n ensures HasNumericEntry(r, ps[j].id) {
        if ps[j].id != last.id {
          assert ps[j] == init[j];
          assert HasNumericEntry(SeedEntries(m, init, creditsPerBuyIn), init[j].id);
        }
      }
    }
  }

  /** With distinct ids, each player's entry is that player's own seed. */
  lemma {:induction false} SeedEntriesValues(m: Entries, ps: seq<Player>, creditsPerBuyIn: real, j: nat)
    requires IdsDistinct(ps) && j < |ps|
    ensures ps[j].id in SeedEntries(m, ps, creditsPerBuyIn)
    ensures SeedEntries(m, ps, creditsPerBuyIn)[ps[j].id] == Seed(ps[j], creditsPerBuyIn)
    decreases |ps|
  {
    var n := |ps|;
    var init := ps[..n - 1];
    if j < n - 1 {
      assert IdsDistinct(init) && init[j] == ps[j] && ps[j].id != ps[n - 1].id;
      SeedEntriesValues(m, init, creditsPerBuyIn, j);
    }
  }

  /** The list part-way through the Finish loop: the first `i` players
      committed, the rest as they were. */
  function CommitPrefix(ps: seq<Player>, i: nat, m: Entries): (r: seq<Player>)
    ensures |r| == |ps|
  {
    seq(|ps|, j requires 0 <= j < |ps| => if j < i then CommitFinal(ps[j], m) else ps[j])
  }

  /** Committing keeps every player's id. */
  lemma CommitPrefixIds(ps: seq<Player>, i: nat, m: Entries)
    ensures forall j :: 0 <= j < |ps| ==> CommitPrefix(ps, i, m)[j].id == ps[j].id
  {
  }

  /** One step of Finish for a player whose entry parses: the edit on the
      player carrying that id is the next committed player. */
  lemma CommitStepEdited(snapshot: seq<Player>, i: nat, m: Entries, v: real)
    requires IdsDistinct(snapshot) && i < |snapshot|
    requires snapshot[i].id in m && ParseNumber(m[snapshot[i].id]) == Some(v)
    ensures EditFirst(CommitPrefix(snapshot, i, m), snapshot[i].id, SetCredits(v)) == CommitPrefix(snapshot, i + 1, m)
  {
    var ps := CommitPrefix(snapshot, i, m);
    CommitPrefixIds(snapshot, i, m);
    assert IdsDistinct(ps);
    FindIndexDistinct(ps, i);
    assert EditFirst(ps, snapshot[i].id, SetCredits(v)) == ps[i := ps[i].(totalCredits := v)];
  }

  /** One step of Finish for a player whose entry is missing or does not parse. */
  lemma CommitStepSkipped(snapshot: seq<Player>, i: nat, m: Entries)
    requires i < |snapshot|
    requires snapshot[i].id !in m || ParseNumber(m[snapshot[i].id]).None?
    ensures CommitPrefix(snapshot, i, m) == CommitPrefix(snapshot, i + 1, m)
  {
  }

  class GameEndScreen {
    const manager: GameManager
    var finalCredits: Entries
    var showingLeaderboard: bool

    constructor (manager: GameManager)
      ensures this.manager == manager && finalCredits == map[] && !showingLeaderboard
    {
      this.manager := manager;
      finalCredits := map[];
      showingLeaderboard := false;
    }

    /** Entries exist only for players on the list. */
    predicate KeyedByPlayers()
      reads this, manager
    {
      finalCredits.Keys <= IdSet(manager.players)
    }

    /** `onAppear`: seeds every player's entry with their buy-ins' worth; other
        entries are left as they were. */
    method Appear()
      requires manager.Valid()
      modifies this`finalCredits
      ensures finalCredits == SeedEntries(old(finalCredits), manager.players, manager.creditsPerBuyIn)
      ensures AllEntered(manager.players, finalCredits)
      ensures forall j :: 0 <= j < |manager.players| ==>
                finalCredits[manager.players[j].id] == Seed(manager.players[j], manager.creditsPerBuyIn)
      ensures forall k :: k in old(finalCredits) && k !in IdSet(manager.players) ==>
                k in finalCredits && finalCredits[k] == old(finalCredits[k])
      ensures old(KeyedByPlayers()) ==> KeyedByPlayers()
    {
      var ps := manager.players;
      var i := 0;
      while i < |ps|
        invariant 0 <= i <= |ps|
        invariant finalCredits == SeedEntries(old(finalCredits), ps[..i], manager.creditsPerBuyIn)
      {
        var player := ps[i];
        finalCredits := finalCredits[player.id := Seed(player, manager.creditsPerBuyIn)];
        assert ps[..i + 1][..i] == ps[..i];
        i := i + 1;
      }
      assert ps[..i] == ps;
      SeedEntriesEntered(old(finalCredits), ps, manager.creditsPerBuyIn);
      SeedEntriesKeys(old(finalCredits), ps, manager.creditsPerBuyIn);
      forall j | 0 <= j < |ps| ensures finalCredits[ps[j].id] == Seed(ps[j], manager.creditsPerBuyIn) {
        SeedEntriesValues(old(finalCredits), ps, manager.creditsPerBuyIn, j);
      }
      forall k | k in old(finalCredits) && k !in IdSet(ps) ensures k in finalCredits && finalCredits[k] == old(finalCredits[k]) {
        SeedEntriesKeepsOthers(old(finalCredits), ps, manager.creditsPerBuyIn, k);
      }
    }

    /** Typing into a player's field. */
    method EditEntry(player: Player, text: string)
      modifies this`finalCredits
      ensures finalCredits == old(finalCredits)[player.id := text]
      ensures old(KeyedByPlayers()) && player.id in IdSet(manager.players) ==> KeyedByPlayers()
    {
      finalCredits := finalCredits[player.id := text];
    }

    /** The loop in the Finish Game action: every numeric entry is written into
        its player's credits through `updatePlayerCredits`, the rest are left. */
    method CommitEntries()
      requires manager.Valid()
      modifies manager`players
      ensures manager.players == CommitFinals(old(manager.players), finalCredits)
      ensures manager.Valid()
    {
      var snapshot := manager.players;
      var i := 0;
      while i < |snapshot|
        invariant 0 <= i <= |snapshot|
        invariant manager.Valid()
        invariant manager.players == CommitPrefix(snapshot, i, finalCredits)
      {
        var player := snapshot[i];
        if player.id in finalCredits {
          match ParseNumber(finalCredits[player.id])
          case Some(finalCredit) =>
            manager.UpdatePlayerCredits(player.id, finalCredit);
            CommitStepEdited(snapshot, i, finalCredits, finalCredit);
          case None =>
            CommitStepSkipped(snapshot, i, finalCredits);
        } else {
          CommitStepSkipped(snapshot, i, finalCredits);
        }
        i := i + 1;
      }
      assert CommitPrefix(snapshot, i, finalCredits) == CommitFinals(snapshot, finalCredits);
    }

    /** The Finish Game button, which is disabled unless the gate holds: the
        entries are committed and the leaderboard is shown. With entries only for
        current players the credits then balance the pot. */
    method Finish()
      requires manager.Valid()
      requires FinishEnabled(manager.players, finalCredits, manager.totalPotCredits)
      modifies manager`players, this`showingLeaderboard
      ensures manager.players == CommitFinals(old(manager.players), finalCredits)
      ensures old(KeyedByPlayers()) ==> Abs(manager.GetTotalPotInCredits() - manager.totalPotCredits) < 0.01
      ensures manager.Valid() && showingLeaderboard
    {
      ghost var snapshot, pot := manager.players, manager.totalPotCredits;
      ghost var keyed := KeyedByPlayers();
      if keyed {
        FinishBalancesPot(snapshot, finalCredits, pot);
      }
      CommitEntries();
      showingLeaderboard := true;
    }
  }
}
