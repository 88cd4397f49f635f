/**
 * The game screen: each player card's buy-in buttons and name editor, and the
 * confirmed Restart. The handlers act on the shared manager through the card's
 * snapshot of its player.
 */
module GamePlay {
  import opened Wrappers
  import opened Text
  import opened Game
  import AddPlayer

  /** The two buy-in buttons on a player card. */
  datatype BuyInButton = Less | More

  /** The buy-in count a button asks for, if any: minus only above 1, plus always. */
  function BuyInRequest(button: BuyInButton, buyIns: int): (r: Option<int>)
    ensures button == More ==> r == Some(buyIns + 1)
    ensures button == Less ==> (r.Some? <==> buyIns > 1) && (r.Some? ==> r.value == buyIns - 1)
    ensures r.Some? && buyIns >= 1 ==> r.value >= 1
  {
    match button
    case Less => if buyIns > 1 then Some(buyIns - 1) else None
    case More => Some(buyIns + 1)
  }

  /** A card's buy-in count after a run of button presses, each one answered. */
  function BuyInsAfter(buyIns: int, buttons: seq<BuyInButton>): int
    decreases |buttons|
  {
    if buttons == [] then buyIns
    else
      var next := match BuyInRequest(buttons[0], buyIns) case Some(b) => b case None => buyIns;
      BuyInsAfter(next, buttons[1..])
  }

  /** Starting from at least one buy-in, no run of presses takes a player below one. */
  lemma {:induction false} BuyInsStayPositive(buyIns: int, buttons: seq<BuyInButton>)
    requires buyIns >= 1
    ensures BuyInsAfter(buyIns, buttons) >= 1
    decreases |buttons|
  {
    if buttons != [] {
      var next := match BuyInRequest(buttons[0], buyIns) case Some(b) => b case None => buyIns;
      BuyInsStayPositive(next, buttons[1..]);
    }
  }

  /** Every player on the list has at least one buy-in. */
  predicate BuyInsPositive(ps: seq<Player>) {
    forall i :: 0 <= i < |ps| ==> ps[i].buyIns >= 1
  }

  /** A buy-in edit of at least one keeps every player at one buy-in or more. */
  lemma BuyInEditKeepsPositive(ps: seq<Player>, id: PlayerId, buyIns: int, creditsPerBuyIn: real)
    requires BuyInsPositive(ps) && buyIns >= 1
    ensures BuyInsPositive(EditFirst(ps, id, SetBuyIns(buyIns, BuyInCredits(buyIns, creditsPerBuyIn))))
  {
    var r := EditFirst(ps, id, SetBuyIns(buyIns, BuyInCredits(buyIns, creditsPerBuyIn)));
    forall i | 0 <= i < |r| ensures r[i].buyIns >= 1 {
      if FindIndex(ps, id) != Some(i) {
        assert r[i] == ps[i];
      }
    }
  }

  /** A buy-in button on the card of `player`: the answered request goes through
      `updatePlayerBuyIns`, which also resets the credits to the new buy-ins' worth. */
  method BuyInTapped(manager: GameManager, player: Player, button: BuyInButton)
    requires manager.Valid()
    modifies manager`players
    ensures manager.Valid()
    ensures match BuyInRequest(button, player.buyIns)
            case Some(b) =>
              manager.players == EditFirst(old(manager.players), player.id, SetBuyIns(b, BuyInCredits(b, manager.creditsPerBuyIn)))
            case None => manager.players == old(manager.players)
    ensures player.buyIns >= 1 && old(BuyInsPositive(manager.players)) ==> BuyInsPositive(manager.players)
  {
    match BuyInRequest(button, player.buyIns)
    case Some(b) =>
      ghost var before := manager.players;
      manager.UpdatePlayerBuyIns(player.id, b);
      if player.buyIns >= 1 && BuyInsPositive(before) {
        BuyInEditKeepsPositive(before, player.id, b, manager.creditsPerBuyIn);
      }
    case None =>
  }

  /** The Update button of the name editor: the trimmed text, when it has at
      least two characters. */
  function NameEdit(text: string): (r: Option<string>)
    ensures r.Some? <==> |Trim(text)| >= 2
    ensures r.Some? ==> r.value == Trim(text) && |r.value| >= 2
    ensures r.Some? ==> !IsSpace(r.value[0]) && !IsSpace(r.value[|r.value| - 1])
  {
    var trimmedName := Trim(text);
    if trimmedName != [] && |trimmedName| >= 2 then Some(trimmedName) else None
  }

  /** The name editor applies the same length rules as adding a player, but no
      duplicate or capacity check: a rename is accepted exactly when the add
      form would fail on neither an empty nor a too short name. */
  lemma NameEditMatchesAddLengthRules(ps: seq<Player>, numberOfPlayers: int, text: string)
    ensures NameEdit(text).Some? <==>
              AddPlayer.Validate(ps, numberOfPlayers, text) != AddPlayer.Rejected(AddPlayer.EmptyName)
              && AddPlayer.Validate(ps, numberOfPlayers, text) != AddPlayer.Rejected(AddPlayer.NameTooShort)
  {
  }

  /** Editing the already trimmed name again gives the same result. */
  lemma NameEditIdempotent(text: string)
    requires NameEdit(text).Some?
    ensures NameEdit(NameEdit(text).value) == NameEdit(text)
  {
    TrimIdempotent(text);
  }

  /** The Update button on the card of `player`. */
  method NameUpdateTapped(manager: GameManager, player: Player, tempName: string)
    requires manager.Valid()
    modifies manager`players
    ensures manager.Valid()
    ensures match NameEdit(tempName)
            case Some(name) => manager.players == EditFirst(old(manager.players), player.id, Rename(name))
            case None => manager.players == old(manager.players)
  {
    var trimmedName := Trim(tempName);
    if trimmedName != [] && |trimmedName| >= 2 {
      manager.UpdatePlayerName(player.id, trimmedName);
    }
  }

  /** The confirmed Restart: the whole game goes back to its initial state. */
  method RestartConfirmed(manager: GameManager)
    modifies manager
    ensures manager.Valid() && manager.IsInitial() && manager.PotConsistent()
  {
    manager.ResetGame();
  }
}
