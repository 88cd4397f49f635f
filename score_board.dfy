/**
 * The score board: Reset All, and each score card's minus, plus and typed
 * score, all by the card's player id.
 */
module ScoreBoard {
  import opened Wrappers
  import opened Text
  import opened Game

  /** The players after Reset All: every score 0, everything else as it was. */
  function ScoresCleared(ps: seq<Player>): (r: seq<Player>)
    ensures |r| == |ps|
  {
    seq(|ps|, i requires 0 <= i < |ps| => ps[i].(score := 0))
  }

  /** Reset All keeps names, ids, buy-ins, credits and order: only scores change. */
  lemma ScoresClearedKeepsAllButScore(ps: seq<Player>)
    ensures forall i :: 0 <= i < |ps| ==>
              var q := ScoresCleared(ps)[i];
              q.id == ps[i].id && q.name == ps[i].name && q.buyIns == ps[i].buyIns
              && q.totalCredits == ps[i].totalCredits && q.score == 0
  {
  }

  /** Resetting scores twice is resetting them once. */
  lemma ScoresClearedIdempotent(ps: seq<Player>)
    ensures ScoresCleared(ScoresCleared(ps)) == ScoresCleared(ps)
  {
  }

  /** Reset All leaves the credit total, and so the pot check, as it was. */
  lemma {:induction false} ScoresClearedKeepsCredits(ps: seq<Player>)
    ensures SumCredits(ScoresCleared(ps)) == SumCredits(ps)
    decreases |ps|
  {
    if ps != [] {
      var n := |ps|;
      assert ScoresCleared(ps)[..n - 1] == ScoresCleared(ps[..n - 1]);
      ScoresClearedKeepsCredits(ps[..n - 1]);
    }
  }

  /** The Reset All button: an in-place loop writing 0 into every player's score. */
  method ResetAllScores(manager: GameManager)
    requires manager.Valid()
    modifies manager`players
    ensures manager.players == ScoresCleared(old(manager.players))
    ensures manager.Valid()
  {
    var i := 0;
    while i < |manager.players|
      invariant 0 <= i <= |manager.players| == |old(manager.players)|
      invariant forall j :: 0 <= j < i ==> manager.players[j] == old(manager.players)[j].(score := 0)
      invariant forall j :: i <= j < |manager.players| ==> manager.players[j] == old(manager.players)[j]
    {
      manager.players := manager.players[i := manager.players[i].(score := 0)];
      i := i + 1;
    }
  }

  /** The score a card's button asks for: one lower or one higher, with no floor. */
  datatype ScoreButton = Down | Up

  function ScoreRequest(button: ScoreButton, score: int): (r: int)
    ensures button == Down ==> r < score && score - r == 1
    ensures button == Up ==> r > score && r - score == 1
  {
    match button
    case Down => score - 1
    case Up => score + 1
  }

  /** A second score write to the same player replaces the first. */
  lemma ScoreEditLastWins(ps: seq<Player>, id: PlayerId, a: int, b: int)
    ensures EditFirst(EditFirst(ps, id, SetScore(a)), id, SetScore(b)) == EditFirst(ps, id, SetScore(b))
  {
    var q := EditFirst(ps, id, SetScore(a));
    match FindIndex(ps, id)
    case None =>
      assert q == ps;
    case Some(k) =>
      assert FindIndex(q, id) == Some(k);
  }

  /** Writing a player's own current score changes nothing. */
  lemma ScoreEditSameScore(ps: seq<Player>, k: nat)
    requires IdsDistinct(ps) && k < |ps|
    ensures EditFirst(ps, ps[k].id, SetScore(ps[k].score)) == ps
  {
    FindIndexDistinct(ps, k);
  }

  /** The player list after a tap on the card of the player at `k`, the card
      showing that player as they are on the list. */
  function AfterTap(ps: seq<Player>, k: nat, button: ScoreButton): (r: seq<Player>)
    requires k < |ps|
    ensures |r| == |ps|
  {
    EditFirst(ps, ps[k].id, SetScore(ScoreRequest(button, ps[k].score)))
  }

  /** A tap on one card changes that player's score by one and nothing else. */
  lemma AfterTapChangesOneScore(ps: seq<Player>, k: nat, button: ScoreButton)
    requires IdsDistinct(ps) && k < |ps|
    ensures forall j :: 0 <= j < |ps| && j != k ==> AfterTap(ps, k, button)[j] == ps[j]
    ensures AfterTap(ps, k, button)[k] == ps[k].(score := ScoreRequest(button, ps[k].score))
  {
    FindIndexDistinct(ps, k);
  }

  /** On the same card, a minus tap then a plus tap (or plus then minus) gives
      back the player list as it was. */
  lemma OppositeTapsRestore(ps: seq<Player>, k: nat, first: ScoreButton)
    requires IdsDistinct(ps) && k < |ps|
    ensures var second := if first == Down then Up else Down;
            AfterTap(AfterTap(ps, k, first), k, second) == ps
  {
    var second := if first == Down then Up else Down;
    var q := AfterTap(ps, k, first);
    var id := ps[k].id;
    AfterTapChangesOneScore(ps, k, first);
    assert q[k].id == id && q[k].score == ScoreRequest(first, ps[k].score);
    assert ScoreRequest(second, q[k].score) == ps[k].score;
    ScoreEditLastWins(ps, id, ScoreRequest(first, ps[k].score), ps[k].score);
    ScoreEditSameScore(ps, k);
  }

  /** A minus or plus button on the card of `player`, through `updatePlayerScore`. */
  method ScoreTapped(manager: GameManager, player: Player, button: ScoreButton)
    requires manager.Valid()
    modifies manager`players
    ensures manager.Valid()
    ensures manager.players == EditFirst(old(manager.players), player.id, SetScore(ScoreRequest(button, player.score)))
  {
    var newScore := ScoreRequest(button, player.score);
    manager.UpdatePlayerScore(player.id, newScore);
  }

  /** The Update button of the score editor: `Int(tempScore)`, and nothing
      happens when the text is not an integer. */
  method ScoreTyped(manager: GameManager, player: Player, tempScore: string)
    requires manager.Valid()
    modifies manager`players
    ensures manager.Valid()
    ensures match ParseInt(tempScore)
            case Some(s) => manager.players == EditFirst(old(manager.players), player.id, SetScore(s))
            case None => manager.players == old(manager.players)
  {
    match ParseInt(tempScore)
    case Some(newScore) =>
      manager.UpdatePlayerScore(player.id, newScore);
    case None =>
  }

  /** The editor opens with the player's score printed in it; confirming that
      text unedited parses back and writes the same score, so nothing changes. */
  lemma PrefilledScoreKeepsPlayers(ps: seq<Player>, k: nat)
    requires IdsDistinct(ps) && k < |ps|
    requires MinInt64 <= ps[k].score <= MaxInt64
    ensures ParseInt(IntToString(ps[k].score)) == Some(ps[k].score)
    ensures EditFirst(ps, ps[k].id, SetScore(ParseInt(IntToString(ps[k].score)).value)) == ps
  {
    ParseIntOfIntToString(ps[k].score);
    ScoreEditSameScore(ps, k);
  }
}
