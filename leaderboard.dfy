/**
 * The leaderboard: players ranked by final credits, the winner, each player's
 * position, and the profit or loss shown on each card.
 */
module Leaderboard {
  import opened Wrappers
  import opened Text
  import opened Game

  predicate SortedByCreditsDesc(ps: seq<Player>) {
    forall i, j :: 0 <= i < j < |ps| ==> ps[i].totalCredits >= ps[j].totalCredits
  }

  /** A player with at least the credits of a ranking's head can go in front of it. */
  lemma SortedCons(p: Player, ps: seq<Player>)
    requires SortedByCreditsDesc(ps)
    requires ps != [] ==> p.totalCredits >= ps[0].totalCredits
    ensures SortedByCreditsDesc([p] + ps)
  {
    var r := [p] + ps;
    forall i, j | 0 <= i < j < |r| ensures r[i].totalCredits >= r[j].totalCredits {
      if i == 0 && j > 1 {
        assert ps[0].totalCredits >= ps[j - 1].totalCredits;
      }
    }
  }

  /** Puts `p` into a ranking, ahead of every player with no more credits. */
  function InsertByCredits(p: Player, ps: seq<Player>): (r: seq<Player>)
    requires SortedByCreditsDesc(ps)
    ensures multiset(r) == multiset(ps) + multiset{p}
    ensures SortedByCreditsDesc(r)
    ensures |r| == |ps| + 1
    ensures r[0] == p || (ps != [] && r[0] == ps[0])
  {
    if ps == [] || p.totalCredits >= ps[0].totalCredits then SortedCons(p, ps); [p] + ps
    else
      var rest := InsertByCredits(p, ps[1..]);
      assert ps == [ps[0]] + ps[1..];
      SortedCons(ps[0], rest);
      [ps[0]] + rest
  }

  /** `players.sorted { $0.totalCredits > $1.totalCredits }`: the same players,
      most credits first. */
  function SortByCredits(ps: seq<Player>): (r: seq<Player>)
    ensures multiset(r) == multiset(ps)
    ensures |r| == |ps|
    ensures SortedByCreditsDesc(r)
  {
    if ps == [] then []
    else
      assert ps == [ps[0]] + ps[1..];
      InsertByCredits(ps[0], SortByCredits(ps[1..]))
  }

  /** `sortedPlayers.first`: a player with the most credits, and none only when
      there are no players. */
  function Winner(ps: seq<Player>): (r: Option<Player>)
    ensures r.None? <==> ps == []
    ensures r.Some? ==> r.value in ps
    ensures r.Some? ==> forall q :: q in ps ==> q.totalCredits <= r.value.totalCredits
  {
    var sorted := SortByCredits(ps);
    if sorted == [] then None
    else
      assert sorted[0] in multiset(ps);
      assert forall q :: q in ps ==> q.totalCredits <= sorted[0].totalCredits by {
        forall q | q in ps ensures q.totalCredits <= sorted[0].totalCredits {
          assert q in multiset(sorted);
          var k :| 0 <= k < |sorted| && sorted[k] == q;
        }
      }
      Some(sorted[0])
  }

  datatype Standing = Standing(player: Player, position: int)

  /** The rows of "Final Credit Standings": the ranking with positions 1, 2, ... */
  function Standings(ps: seq<Player>): (r: seq<Standing>)
    ensures |r| == |ps|
    ensures forall i :: 0 <= i < |r| ==> r[i].position == i + 1 && r[i].player == SortByCredits(ps)[i]
    ensures forall i, j :: 0 <= i < j < |r| ==> r[i].player.totalCredits >= r[j].player.totalCredits
    ensures |r| > 0 ==> Winner(ps) == Some(r[0].player)
  {
    var sorted := SortByCredits(ps);
    seq(|sorted|, i requires 0 <= i < |sorted| => Standing(sorted[i], i + 1))
  }

  // ---------------------------------------------------------------------------
  // A player's card

  /** Final credits less what the player paid in. */
  function ProfitLoss(p: Player, creditsPerBuyIn: real): real {
    p.totalCredits - BuyInCredits(p.buyIns, creditsPerBuyIn)
  }

  /** Profits and losses over all players net to the credits in play less the total paid in. */
  lemma {:induction false} ProfitLossNets(ps: seq<Player>, creditsPerBuyIn: real)
    ensures SumProfitLoss(ps, creditsPerBuyIn) == SumCredits(ps) - BuyInCredits(SumBuyIns(ps), creditsPerBuyIn)
  {
    if ps != [] {
      var n := |ps|;
      ProfitLossNets(ps[..n - 1], creditsPerBuyIn);
      var rest := SumBuyIns(ps[..n - 1]) as real;
      var b := ps[n - 1].buyIns as real;
      assert rest * creditsPerBuyIn + b * creditsPerBuyIn == (rest + b) * creditsPerBuyIn;
    }
  }

  function SumProfitLoss(ps: seq<Player>, creditsPerBuyIn: real): real {
    if ps == [] then 0.0
    else SumProfitLoss(ps[..|ps| - 1], creditsPerBuyIn) + ProfitLoss(ps[|ps| - 1], creditsPerBuyIn)
  }

  /** A player whose buy-ins were just set holds exactly what they paid in. */
  lemma ProfitLossAfterBuyIns(p: Player, buyIns: int, creditsPerBuyIn: real)
    ensures ProfitLoss(Apply(p, SetBuyIns(buyIns, BuyInCredits(buyIns, creditsPerBuyIn))), creditsPerBuyIn) == 0.0
  {
  }

  /** After a restart with the same settings nobody is up or down. */
  lemma ProfitLossAfterRestart(ps: seq<Player>, creditsPerBuyIn: real, i: nat)
    requires i < |ps|
    ensures ProfitLoss(Restarted(ps, creditsPerBuyIn)[i], creditsPerBuyIn) == 0.0
  {
  }

  /** "+n" for a profit (or break-even), "-n" for a loss, n the whole credits
      of the amount; reading the text back gives the amount truncated toward zero. */
  function ProfitLossText(profitLoss: real): (r: string)
    ensures |r| >= 2 && AllDigits(r[1..])
    ensures r[0] == '+' <==> profitLoss >= 0.0
    ensures r[0] == '-' <==> profitLoss < 0.0
    ensures ParseNumber(r) == Some(Trunc(profitLoss) as real)
  {
    if profitLoss >= 0.0 then
      var digits := NatToString(Trunc(profitLoss));
      ParseNumberOfPlusNat(Trunc(profitLoss));
      assert ("+" + digits)[1..] == digits;
      "+" + digits
    else
      var digits := NatToString(Trunc(Abs(profitLoss)));
      ParseNumberOfMinusNat(Trunc(Abs(profitLoss)));
      assert ("-" + digits)[1..] == digits;
      "-" + digits
  }

  datatype Color = Yellow | Gray | Orange | Blue | Green | Red

  function ProfitLossColor(profitLoss: real): Color {
    if profitLoss >= 0.0 then Green else Red
  }

  /** The colour and the sign of the text always agree. */
  lemma ProfitLossColorMatchesSign(profitLoss: real)
    ensures ProfitLossColor(profitLoss) == Green <==> ProfitLossText(profitLoss)[0] == '+'
    ensures ProfitLossColor(profitLoss) == Red <==> ProfitLossText(profitLoss)[0] == '-'
  {
  }

  function PositionColor(position: int): Color {
    match position
    case 1 => Yellow
    case 2 => Gray
    case 3 => Orange
    case _ => Blue
  }

  /** The three medal positions have their own colours; every other is blue. */
  lemma MedalColors(position: int)
    ensures PositionColor(position) == Blue <==> !(1 <= position <= 3)
    ensures PositionColor(1) != PositionColor(2) && PositionColor(2) != PositionColor(3) && PositionColor(1) != PositionColor(3)
  {
  }

  /** The SF Symbol name drawn for a position. */
  function PositionIcon(position: int): string {
    match position
    case 1 => "1.circle.fill"
    case 2 => "2.circle.fill"
    case 3 => "3.circle.fill"
    case _ => IntToString(position) + ".circle"
  }

  /** Different positions get different icons. */
  lemma PositionIconInjective(a: int, b: int)
    requires a != b
    ensures PositionIcon(a) != PositionIcon(b)
  {
    var a3, b3 := 1 <= a <= 3, 1 <= b <= 3;
    if a3 && b3 {
      assert PositionIcon(a)[0] != PositionIcon(b)[0] by {
        assert PositionIcon(1) == "1.circle.fill";
        assert PositionIcon(2) == "2.circle.fill";
        assert PositionIcon(3) == "3.circle.fill";
      }
    } else if a3 || b3 {
      var medal, other := if a3 then a else b, if a3 then b else a;
      var mi, oi := PositionIcon(medal), PositionIcon(other);
      assert mi[|mi| - 1] == 'l' by {
        assert PositionIcon(1) == "1.circle.fill";
        assert PositionIcon(2) == "2.circle.fill";
        assert PositionIcon(3) == "3.circle.fill";
      }
      assert oi[|oi| - 1] == 'e';
    } else if PositionIcon(a) == PositionIcon(b) {
      var sa, sb := IntToString(a), IntToString(b);
      assert |sa| == |sb|;
      assert sa == PositionIcon(a)[..|sa|];
      assert sb == PositionIcon(b)[..|sb|];
      ParseNumberOfIntToString(a);
      ParseNumberOfIntToString(b);
    }
  }

  /** Every row of the standings carries its own icon. */
  lemma StandingIconsDistinct(ps: seq<Player>, i: nat, j: nat)
    requires i < j < |ps|
    ensures PositionIcon(Standings(ps)[i].position) != PositionIcon(Standings(ps)[j].position)
  {
    var st := Standings(ps);
    assert st[i].position == i + 1 && st[j].position == j + 1;
    PositionIconInjective(i + 1, j + 1);
  }
}
