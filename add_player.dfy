/**
 * The Add Player sheet: the name validation `addPlayer()` runs before it
 * appends to the manager, and the sheet's own state (the text field, the
 * alert and whether the sheet is shown).
 */
module AddPlayer {
  import opened Text
  import opened Game

  datatype AddError = EmptyName | NameTooShort | DuplicateName | RosterFull

  /** The alert text shown for each rejection. */
  function Message(e: AddError): string {
    match e
    case EmptyName => "Please enter a player name"
    case NameTooShort => "Player name must be at least 2 characters long"
    case DuplicateName => "A player with this name already exists"
    case RosterFull => "Maximum number of players reached"
  }

  datatype Outcome = Accepted(name: string) | Rejected(error: AddError)

  /** `players.contains(where: { $0.name.lowercased() == name.lowercased() })`. */
  predicate HasNameIgnoringCase(ps: seq<Player>, name: string) {
    exists i :: 0 <= i < |ps| && Lower(ps[i].name) == Lower(name)
  }

  predicate NamesDistinctIgnoringCase(ps: seq<Player>) {
    forall i, j :: 0 <= i < j < |ps| ==> Lower(ps[i].name) != Lower(ps[j].name)
  }

  /** The checks of `addPlayer()`, run in order on the trimmed input; the first
      that fails decides the rejection, and an accepted name is the trimmed input. */
  function Validate(ps: seq<Player>, numberOfPlayers: int, input: string): (r: Outcome)
    ensures r == Rejected(EmptyName) <==> Trim(input) == []
    ensures r == Rejected(NameTooShort) <==> |Trim(input)| == 1
    ensures r == Rejected(DuplicateName) <==> |Trim(input)| >= 2 && HasNameIgnoringCase(ps, Trim(input))
    ensures r == Rejected(RosterFull) <==>
              |Trim(input)| >= 2 && !HasNameIgnoringCase(ps, Trim(input)) && |ps| >= numberOfPlayers
    ensures r.Accepted? <==>
              |Trim(input)| >= 2 && !HasNameIgnoringCase(ps, Trim(input)) && |ps| < numberOfPlayers
    ensures r.Accepted? ==> r.name == Trim(input)
  {
    var trimmedName := Trim(input);
    if trimmedName == [] then Rejected(EmptyName)
    else if |trimmedName| < 2 then Rejected(NameTooShort)
    else if HasNameIgnoringCase(ps, trimmedName) then Rejected(DuplicateName)
    else if |ps| >= numberOfPlayers then Rejected(RosterFull)
    else Accepted(trimmedName)
  }

  /** Surrounding whitespace never changes the verdict: the checks only see the trimmed text. */
  lemma ValidateIgnoresSurroundingSpace(ps: seq<Player>, numberOfPlayers: int, input: string)
    ensures Validate(ps, numberOfPlayers, input) == Validate(ps, numberOfPlayers, Trim(input))
  {
    TrimIdempotent(input);
  }

  /** An accepted name is stored already trimmed, at least two characters long,
      and neither starts nor ends with whitespace. */
  lemma AcceptedNameIsTrimmed(ps: seq<Player>, numberOfPlayers: int, input: string)
    requires Validate(ps, numberOfPlayers, input).Accepted?
    ensures var name := Validate(ps, numberOfPlayers, input).name;
            Trim(name) == name && |name| >= 2 && !IsSpace(name[0]) && !IsSpace(name[|name| - 1])
  {
    var t := Trim(input);
    assert Validate(ps, numberOfPlayers, input).name == t;
    assert !IsSpace(t[0]) && !IsSpace(t[|t| - 1]);
    TrimIdempotent(input);
  }

  /** Adding never takes the roster past the configured number of players. */
  lemma AcceptedKeepsCapacity(ps: seq<Player>, numberOfPlayers: int, input: string, id: PlayerId, credits: real)
    requires Validate(ps, numberOfPlayers, input).Accepted?
    ensures |ps + [NewPlayer(id, Validate(ps, numberOfPlayers, input).name, 1, credits, 0)]| <= numberOfPlayers
  {
  }

  /** If no two names clash ignoring case, they still do not after an accepted add. */
  lemma AcceptedKeepsNamesDistinct(ps: seq<Player>, numberOfPlayers: int, input: string, id: PlayerId, credits: real)
    requires NamesDistinctIgnoringCase(ps)
    requires Validate(ps, numberOfPlayers, input).Accepted?
    ensures NamesDistinctIgnoringCase(ps + [NewPlayer(id, Validate(ps, numberOfPlayers, input).name, 1, credits, 0)])
  {
    var name := Validate(ps, numberOfPlayers, input).name;
    var qs := ps + [NewPlayer(id, name, 1, credits, 0)];
    forall i, j | 0 <= i < j < |qs| ensures Lower(qs[i].name) != Lower(qs[j].name) {
      if j == |ps| {
        assert qs[i] == ps[i];
        assert !HasNameIgnoringCase(ps, name);
      }
    }
  }

  /** The rosters Start Game creates never clash ignoring case. */
  lemma DefaultRosterNamesDistinct(ids: seq<PlayerId>, creditsPerBuyIn: real)
    requires |ids| <= |DefaultNames|
    ensures NamesDistinctIgnoringCase(DefaultRoster(ids, creditsPerBuyIn))
  {
    var r := DefaultRoster(ids, creditsPerBuyIn);
    forall i, j | 0 <= i < j < |r| ensures Lower(r[i].name) != Lower(r[j].name) {
      DefaultNamesDistinct(i, j);
    }
  }

  class AddPlayerForm {
    const manager: GameManager
    var playerName: string
    var showingAlert: bool
    var alertMessage: string
    var isPresented: bool

    constructor (manager: GameManager)
      ensures this.manager == manager
      ensures playerName == "" && !showingAlert && alertMessage == "" && isPresented
    {
      this.manager := manager;
      playerName := "";
      showingAlert := false;
      alertMessage := "";
      isPresented := true;
    }

    /** The Add Player button. A rejection raises the alert with its message and
        leaves the players alone; an acceptance appends exactly one player with
        the trimmed name, clears the field and closes the sheet. */
    method Submit(id: PlayerId)
      requires manager.Valid() && id !in IdSet(manager.players)
      modifies this`playerName, this`showingAlert, this`alertMessage, this`isPresented, manager`players
      ensures var outcome := Validate(old(manager.players), manager.numberOfPlayers, old(playerName));
              match outcome
              case Rejected(e) =>
                alertMessage == Message(e) && showingAlert && manager.players == old(manager.players)
                && playerName == old(playerName) && isPresented == old(isPresented)
              case Accepted(name) =>
                manager.players == old(manager.players) + [NewPlayer(id, name, 1, manager.creditsPerBuyIn, 0)]
                && playerName == "" && !isPresented
                && alertMessage == old(alertMessage) && showingAlert == old(showingAlert)
      ensures manager.Valid()
    {
      var trimmedName := Trim(playerName);
      if trimmedName == [] {
        alertMessage := Message(EmptyName);
        showingAlert := true;
        return;
      }
      if |trimmedName| < 2 {
        alertMessage := Message(NameTooShort);
        showingAlert := true;
        return;
      }
      if HasNameIgnoringCase(manager.players, trimmedName) {
        alertMessage := Message(DuplicateName);
        showingAlert := true;
        return;
      }
      if |manager.players| >= manager.numberOfPlayers {
        alertMessage := Message(RosterFull);
        showingAlert := true;
        return;
      }
      manager.AddPlayer(id, trimmedName);
      playerName := "";
      isPresented := false;
    }
  }
}
