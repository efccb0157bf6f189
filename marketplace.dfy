/** The application's shared state as one object: the `users` and `items`
    collections every page reads and writes, and the auth provider's session. Each
    method is one handler, written as the handler's sequence of checks and writes and
    proved equal to the page module's definition of its effect. */
module Marketplace {
  import opened Ledger
  import opened AuthContext
  import AddItemPage
  import ItemDetailPage
  import AdminDashboard

  class Store {
    var users: map<Uid, UserRecord>
    var items: seq<Item>
    var session: Session

    function Data(): Db
      reads this
    {
      Db(users, items)
    }

    /** The session's copy of the record is the stored one, no balance is negative
        and every item's uploader has a record. */
    ghost predicate Valid()
      reads this
    {
      Coherent(users, session) && NonNegative(users) && UploadersRegistered(Data())
    }

    constructor ()
      ensures Valid() && users == map[] && items == [] && session == SignedOut
    {
      users, items, session := map[], [], SignedOut;
    }

    /** The auth callback for a signed-in identity: read the user's record, create it
        with the sign-up bonus if it is missing, and hold it in the session. */
    method SignIn(id: Identity)
      requires Valid()
      modifies this
      ensures Valid()
      ensures (session, users) == AuthContext.SignIn(old(users), id) && items == old(items)
      ensures TotalPoints(users) == old(TotalPoints(users)) + (if id.uid in old(users) then 0 else SignUpBonus)
    {
      if id.uid in users {
        session := SignedIn(id, users[id.uid]);
      } else {
        var record := NewUserRecord(id);
        users := users[id.uid := record];
        session := SignedIn(id, record);
      }
      SignInPoints(old(users), id);
    }

    /** The auth callback for a sign-out: both `user` and `userData` are cleared. */
    method SignOut()
      requires Valid()
      modifies this
      ensures Valid()
      ensures session == SignedOut && users == old(users) && items == old(items)
    {
      session := SignedOut;
    }

    /** The listing form's submit handler: on success exactly one item is added, under
        the next id, and nothing else changes; a refused submit changes nothing. */
    method SubmitItem(form: AddItemPage.ItemForm) returns (r: Result<ItemId, AddItemPage.SubmitError>)
      requires Valid()
      modifies this
      ensures Valid()
      ensures users == old(users) && session == old(session)
      ensures AddItemPage.NewItem(old(session), form).Err? ==>
        r == Err(AddItemPage.NewItem(old(session), form).error) && items == old(items)
      ensures AddItemPage.NewItem(old(session), form).Ok? ==>
        r == Ok(|old(items)|) && items == old(items) + [AddItemPage.NewItem(old(session), form).value]
    {
      var built := AddItemPage.NewItem(session, form);
      if built.Err? {
        return Err(built.error);
      }
      items := items + [built.value];
      r := Ok(|items| - 1);
    }

    /** The redeem handler: its checks in order, then the debit, the credit and the
        status write, then the session's copy of the redeemer's record is refreshed.
        With every uploader registered, the total of all balances is unchanged. */
    method Redeem(id: ItemId, confirmed: bool) returns (outcome: ItemDetailPage.RedeemOutcome)
      requires Valid()
      modifies this
      ensures Valid()
      ensures (outcome, Data(), session) == ItemDetailPage.HandleRedeem(old(Data()), old(session), id, confirmed)
      ensures TotalPoints(users) == old(TotalPoints(users))
    {
      if session.SignedOut? {
        return ItemDetailPage.NotLoggedIn;
      }
      if id >= |items| {
        return ItemDetailPage.NoItem;
      }
      var uid := session.user.uid;
      if items[id].uploaderId == uid {
        return ItemDetailPage.OwnItem;
      }
      if session.userData.pointsBalance < ItemDetailPage.Cost {
        return ItemDetailPage.InsufficientPoints;
      }
      if !confirmed {
        return ItemDetailPage.Declined;
      }
      if uid !in users {
        return ItemDetailPage.WriteFailed;
      }
      // 1. debit the redeemer
      users := users[uid := users[uid].(pointsBalance := session.userData.pointsBalance - ItemDetailPage.Cost)];
      // 2. credit the uploader, if their record exists
      var uploader := items[id].uploaderId;
      if uploader in users {
        users := users[uploader := users[uploader].(pointsBalance := users[uploader].pointsBalance + ItemDetailPage.Cost)];
      }
      // 3. mark the item swapped
      items := items[id := items[id].(status := Swapped)];
      session := SignedIn(session.user, users[uid]);
      outcome := ItemDetailPage.Redeemed;
      ItemDetailPage.RedeemKeepsInvariants(old(Data()), old(session), id, confirmed);
      ItemDetailPage.RedeemConservesPoints(old(Data()), old(session), id, confirmed);
    }

    /** The admin's approve / reject handler. A write to a missing item fails and
        changes nothing. */
    method HandleApproval(id: ItemId, shouldApprove: bool) returns (ok: bool)
      requires Valid()
      modifies this
      ensures Valid()
      ensures ok == (id < |old(items)|)
      ensures items == if ok then AdminDashboard.Decided(old(items), id, shouldApprove) else old(items)
      ensures users == old(users) && session == old(session)
    {
      if id >= |items| {
        return false;
      }
      items := items[id := AdminDashboard.Decide(items[id], shouldApprove)];
      ok := true;
    }
  }

  /** A whole session against a fresh store: the uploader signs up and lists an item,
      the approval handler approves it, and a second user who signed up with the bonus
      redeems it and then cannot afford another redeem. */
  method RedeemScenario() returns (redeemer: int, uploader: int, status: Status, again: ItemDetailPage.RedeemOutcome)
    ensures redeemer == 0 && uploader == 20 && status == Swapped
    ensures again == ItemDetailPage.InsufficientPoints
  {
    var store := new Store();
    store.SignIn(Identity("u2", "u2@example.com"));
    var listed := store.SubmitItem(AddItemPage.ItemForm("Jacket", "Denim jacket", "Outerwear", "M", "Good", ""));
    assert |store.items| == 1 && store.items[0].uploaderId == "u2";
    var approved := store.HandleApproval(0, true);
    store.SignIn(Identity("u1", "u1@example.com"));
    assert store.users["u1"].pointsBalance == 10 && store.users["u2"].pointsBalance == 10;
    assert store.session.user.uid == "u1" && store.items[0].uploaderId == "u2";
    var first := store.Redeem(0, true);
    assert first == ItemDetailPage.Redeemed && store.session.userData.pointsBalance == 0;
    redeemer, uploader, status := store.users["u1"].pointsBalance, store.users["u2"].pointsBalance, store.items[0].status;
    again := store.Redeem(0, true);
  }
}
