/**
 * The setup screen: the number-of-players stepper, the buy-in field whose edits
 * recompute the pot, and the Start Game button.
 */
module Setup {
  import opened Game

  /** The largest number of players the stepper offers: one per default name. */
  const MaxPlayers: int := 12

  /** The stepper's two buttons. */
  datatype Press = Minus | Plus

  /** The number of players after one press: minus only above 1, plus only below 12. */
  function Step(n: int, press: Press): (r: int)
    ensures r != n <==> (press == Minus && n > 1) || (press == Plus && n < MaxPlayers)
    ensures press == Minus ==> r <= n && (n > 1 ==> r == n - 1)
    ensures press == Plus ==> r >= n && (n < MaxPlayers ==> r == n + 1)
    ensures 1 <= n <= MaxPlayers ==> 1 <= r <= MaxPlayers
  {
    match press
    case Minus => if n > 1 then n - 1 else n
    case Plus => if n < MaxPlayers then n + 1 else n
  }

  /** The number of players after a run of presses, first press first. */
  function Steps(n: int, presses: seq<Press>): int
    decreases |presses|
  {
    if presses == [] then n else Steps(Step(n, presses[0]), presses[1..])
  }

  /** However the stepper is pressed, a number in 1..12 stays in 1..12. */
  lemma {:induction false} StepsStayInRange(n: int, presses: seq<Press>)
    requires 1 <= n <= MaxPlayers
    ensures 1 <= Steps(n, presses) <= MaxPlayers
    decreases |presses|
  {
    if presses != [] {
      StepsStayInRange(Step(n, presses[0]), presses[1..]);
    }
  }

  /** From the default of 5, every reachable number of players can index the
      twelve default names, which is what generating the default players needs. */
  lemma StepsFromDefaultFitNames(presses: seq<Press>)
    ensures 0 <= Steps(DefaultNumberOfPlayers, presses) <= |DefaultNames|
  {
    StepsStayInRange(DefaultNumberOfPlayers, presses);
  }

  /** Each press moves the number by at most one, so a run of k presses
      moves it by at most k. */
  lemma {:induction false} StepsMoveAtMostOnePerPress(n: int, presses: seq<Press>)
    ensures n - |presses| <= Steps(n, presses) <= n + |presses|
    decreases |presses|
  {
    if presses != [] {
      StepsMoveAtMostOnePerPress(Step(n, presses[0]), presses[1..]);
    }
  }

  class SetupScreen {
    const manager: GameManager
    var showingGame: bool

    /** The stepper keeps the number of players in 1..12. */
    predicate Valid()
      reads this, manager
    {
      1 <= manager.numberOfPlayers <= MaxPlayers
    }

    /** The screen owns a fresh manager, as `@StateObject ... = GameManager()`. */
    constructor ()
      ensures fresh(manager) && manager.Valid() && manager.IsInitial() && manager.PotConsistent()
      ensures Valid() && !showingGame
    {
      manager := new GameManager();
      showingGame := false;
    }

    /** The minus button: one player fewer, and the pot recomputed, but never below 1. */
    method MinusTapped()
      requires Valid()
      modifies manager`numberOfPlayers, manager`totalPotCredits
      ensures Valid()
      ensures manager.numberOfPlayers == Step(old(manager.numberOfPlayers), Minus)
      ensures old(manager.numberOfPlayers) > 1 ==> manager.PotConsistent()
      ensures old(manager.numberOfPlayers) <= 1 ==> manager.totalPotCredits == old(manager.totalPotCredits)
      ensures old(manager.PotConsistent()) ==> manager.PotConsistent()
    {
      if manager.numberOfPlayers > 1 {
        manager.numberOfPlayers := manager.numberOfPlayers - 1;
        manager.UpdateTotalPotCredits();
      }
    }

    /** The plus button: one player more, and the pot recomputed, but never above 12. */
    method PlusTapped()
      requires Valid()
      modifies manager`numberOfPlayers, manager`totalPotCredits
      ensures Valid()
      ensures manager.numberOfPlayers == Step(old(manager.numberOfPlayers), Plus)
      ensures old(manager.numberOfPlayers) < MaxPlayers ==> manager.PotConsistent()
      ensures old(manager.numberOfPlayers) >= MaxPlayers ==> manager.totalPotCredits == old(manager.totalPotCredits)
      ensures old(manager.PotConsistent()) ==> manager.PotConsistent()
    {
      if manager.numberOfPlayers < MaxPlayers {
        manager.numberOfPlayers := manager.numberOfPlayers + 1;
        manager.UpdateTotalPotCredits();
      }
    }

    /** The buy-in field: the new value is stored, and `onChange` recomputes the
        pot when the value actually changed. */
    method BuyInEdited(value: real)
      modifies manager`creditsPerBuyIn, manager`totalPotCredits
      ensures manager.creditsPerBuyIn == value
      ensures value != old(manager.creditsPerBuyIn) ==> manager.PotConsistent()
      ensures value == old(manager.creditsPerBuyIn) ==> manager.totalPotCredits == old(manager.totalPotCredits)
      ensures old(manager.PotConsistent()) ==> manager.PotConsistent()
    {
      var before := manager.creditsPerBuyIn;
      manager.creditsPerBuyIn := value;
      if value != before {
        manager.UpdateTotalPotCredits();
      }
    }

    /** Start Game: the default players, then the game screen. */
    method StartGame(ids: seq<PlayerId>)
      requires Valid()
      requires |ids| == manager.numberOfPlayers && Distinct(ids)
      modifies manager`players, this`showingGame
      ensures manager.players == DefaultRoster(ids, manager.creditsPerBuyIn)
      ensures manager.Valid()
      ensures SumCredits(manager.players) == PotFor(manager.creditsPerBuyIn, manager.numberOfPlayers)
      ensures showingGame
    {
      manager.GenerateDefaultPlayers(ids);
      DefaultRosterCredits(ids, manager.creditsPerBuyIn);
      showingGame := true;
    }
  }
}
