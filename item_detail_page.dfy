/** Redeeming an item for points: the gate that offers the redeem button, the
    handler's checks, and its three writes (debit the redeemer, credit the uploader,
    mark the item swapped). */
module ItemDetailPage {
  import opened Ledger
  import opened AuthContext
  import LandingPage
  import AdminDashboard

  /** The flat price of every item, in points. */
  const Cost: int := 10

  datatype RedeemOutcome =
    | NotLoggedIn         // no signed-in user
    | NoItem              // the page holds no item document
    | OwnItem             // the redeemer uploaded the item
    | InsufficientPoints  // the balance the session holds is below the cost
    | Declined            // the confirmation dialog was dismissed
    | WriteFailed         // the redeemer's record is missing, so the first write fails
    | Redeemed

  /** The page offers the redeem button only for an available item that the viewer
      did not upload; a visitor who is not signed in is offered it too. */
  predicate OffersRedeem(s: Session, item: Item)
    ensures s.SignedOut? ==> (OffersRedeem(s, item) <==> item.status == Available)
    ensures s.SignedIn? ==> (OffersRedeem(s, item) <==> item.status == Available && item.uploaderId != s.user.uid)
  {
    item.status == Available && !(s.SignedIn? && s.user.uid == item.uploaderId)
  }

  /** The handler's checks, in the handler's order. Neither the item's status nor its
      approval is checked here: only the page's gate looks at the status. */
  function RedeemCheck(db: Db, s: Session, id: ItemId, confirmed: bool): (r: RedeemOutcome)
    ensures r == NotLoggedIn <==> s.SignedOut?
    ensures r == NoItem <==> s.SignedIn? && id >= |db.items|
    ensures r == Redeemed <==> (
      && s.SignedIn? && id < |db.items| && db.items[id].uploaderId != s.user.uid
      && s.userData.pointsBalance >= Cost && confirmed && s.user.uid in db.users)
  {
    if s.SignedOut? then NotLoggedIn
    else if id >= |db.items| then NoItem
    else if db.items[id].uploaderId == s.user.uid then OwnItem
    else if s.userData.pointsBalance < Cost then InsufficientPoints
    else if !confirmed then Declined
    else if s.user.uid !in db.users then WriteFailed
    else Redeemed
  }

  /** The handler's checks read the item only for its uploader: changing the item's
      status or approval changes no outcome, so a swapped, rejected or unapproved item
      is redeemed like an available one. */
  lemma RedeemCheckIgnoresState(db: Db, s: Session, id: ItemId, confirmed: bool, status: Status, approved: bool)
    requires id < |db.items|
    ensures var other := db.(items := db.items[id := db.items[id].(status := status, isApproved := approved)]);
      RedeemCheck(other, s, id, confirmed) == RedeemCheck(db, s, id, confirmed)
  {
  }

  /** The three writes, in order. The redeemer's balance is overwritten with
      `believed - Cost`, where `believed` is the balance the handler holds for them;
      the uploader's record is read afresh and credited only if it exists; the item is
      marked swapped. */
  function Transfer(db: Db, uid: Uid, believed: int, id: ItemId): (r: Db)
    requires id < |db.items| && uid in db.users
    ensures r.users.Keys == db.users.Keys
    ensures db.items[id].uploaderId != uid ==>
      r.users[uid] == db.users[uid].(pointsBalance := believed - Cost)
    ensures var up := db.items[id].uploaderId;
      up != uid && up in db.users ==>
      r.users[up] == db.users[up].(pointsBalance := db.users[up].pointsBalance + Cost)
    ensures forall u :: u in db.users && u != uid && u != db.items[id].uploaderId ==> r.users[u] == db.users[u]
    ensures r.items == db.items[id := db.items[id].(status := Swapped)]
  {
    var users1 := db.users[uid := db.users[uid].(pointsBalance := believed - Cost)];
    var up := db.items[id].uploaderId;
    var users2 :=
      if up in users1 then users1[up := users1[up].(pointsBalance := users1[up].pointsBalance + Cost)]
      else users1;
    Db(users2, db.items[id := db.items[id].(status := Swapped)])
  }

  /** The handler as the page has it: checks and writes both use the session's copy of
      the redeemer's balance, and the session is left as it was. */
  function HandleRedeemAsWritten(db: Db, s: Session, id: ItemId, confirmed: bool): (r: (RedeemOutcome, Db))
    ensures r.0 != Redeemed ==> r.1 == db
    ensures r.0 == Redeemed ==> (
      && s.SignedIn? && id < |db.items| && s.user.uid in db.users
      && r.1.users.Keys == db.users.Keys
      && r.1.users[s.user.uid].pointsBalance == s.userData.pointsBalance - Cost
      && r.1.items == db.items[id := db.items[id].(status := Swapped)])
  {
    var outcome := RedeemCheck(db, s, id, confirmed);
    if outcome == Redeemed then (outcome, Transfer(db, s.user.uid, s.userData.pointsBalance, id))
    else (outcome, db)
  }

  /** The handler with the session's copy of the redeemer's record refreshed after the
      writes, so that the next redeem checks and debits the balance the store holds. */
  function HandleRedeem(db: Db, s: Session, id: ItemId, confirmed: bool): (r: (RedeemOutcome, Db, Session))
    ensures r.0 != Redeemed ==> r.1 == db && r.2 == s
    ensures r.0 == Redeemed ==> s.SignedIn? && r.2.SignedIn? && r.2.user == s.user && Coherent(r.1.users, r.2)
  {
    var (outcome, db') := HandleRedeemAsWritten(db, s, id, confirmed);
    if outcome == Redeemed then (outcome, db', SignedIn(s.user, db'.users[s.user.uid]))
    else (outcome, db', s)
  }

  /** Each refusal: no session, the redeemer's own item, too few points. */
  lemma RedeemRefusals(db: Db, s: Session, id: ItemId, confirmed: bool)
    ensures s.SignedOut? ==> HandleRedeem(db, s, id, confirmed).0 == NotLoggedIn
    ensures s.SignedIn? && id < |db.items| && db.items[id].uploaderId == s.user.uid
      ==> HandleRedeem(db, s, id, confirmed).0 == OwnItem
    ensures (s.SignedIn? && id < |db.items| && db.items[id].uploaderId != s.user.uid
             && s.userData.pointsBalance < Cost)
      ==> HandleRedeem(db, s, id, confirmed).0 == InsufficientPoints
  {
  }

  /** Whenever the page offers the button to a signed-in user with enough points, a
      confirmed redeem goes through and a dismissed one does nothing. */
  lemma OfferedRedeemSucceeds(db: Db, s: Session, id: ItemId)
    requires Coherent(db.users, s) && s.SignedIn? && id < |db.items|
    requires OffersRedeem(s, db.items[id]) && s.userData.pointsBalance >= Cost
    ensures HandleRedeem(db, s, id, true).0 == Redeemed
    ensures HandleRedeem(db, s, id, false).0 == Declined
  {
  }

  /** A successful redeem writes exactly three records: the redeemer loses the cost
      and never goes below zero, the uploader (if registered) gains it, and the item
      becomes swapped; every other user and item is as it was. */
  lemma RedeemEffects(db: Db, s: Session, id: ItemId, confirmed: bool)
    requires Coherent(db.users, s) && HandleRedeem(db, s, id, confirmed).0 == Redeemed
    ensures var db' := HandleRedeem(db, s, id, confirmed).1;
      && s.SignedIn? && id < |db.items| && db.items[id].uploaderId != s.user.uid
      && db'.users.Keys == db.users.Keys
      && db'.users[s.user.uid] == db.users[s.user.uid].(pointsBalance := db.users[s.user.uid].pointsBalance - Cost)
      && db'.users[s.user.uid].pointsBalance >= 0
      && (db.items[id].uploaderId in db.users ==>
            db'.users[db.items[id].uploaderId]
            == db.users[db.items[id].uploaderId].(pointsBalance := db.users[db.items[id].uploaderId].pointsBalance + Cost))
      && (forall u :: u in db.users && u != s.user.uid && u != db.items[id].uploaderId ==> db'.users[u] == db.users[u])
      && db'.items == db.items[id := db.items[id].(status := Swapped)]
  {
  }

  /** The change in the total of all balances made by the three writes. */
  lemma TransferPoints(db: Db, uid: Uid, believed: int, id: ItemId)
    requires id < |db.items| && uid in db.users && db.items[id].uploaderId != uid
    ensures TotalPoints(Transfer(db, uid, believed, id).users)
         == TotalPoints(db.users) - db.users[uid].pointsBalance + (believed - Cost)
            + (if db.items[id].uploaderId in db.users then Cost else 0)
  {
    var users1 := db.users[uid := db.users[uid].(pointsBalance := believed - Cost)];
    TotalPointsUpdate(db.users, uid, users1[uid]);
    var up := db.items[id].uploaderId;
    if up in users1 {
      TotalPointsUpdate(users1, up, users1[up].(pointsBalance := users1[up].pointsBalance + Cost));
    }
  }

  /** A successful redeem conserves the total of all balances when the uploader has a
      record; when the uploader has none, the cost leaves the system. */
  lemma RedeemConservesPoints(db: Db, s: Session, id: ItemId, confirmed: bool)
    requires Coherent(db.users, s) && HandleRedeem(db, s, id, confirmed).0 == Redeemed
    ensures TotalPoints(HandleRedeem(db, s, id, confirmed).1.users)
         == TotalPoints(db.users) - (if db.items[id].uploaderId in db.users then 0 else Cost)
  {
    TransferPoints(db, s.user.uid, s.userData.pointsBalance, id);
  }

  /** Every redeem attempt keeps the session's copy equal to the store's record, keeps
      balances non-negative and keeps every item's uploader registered. */
  lemma RedeemKeepsInvariants(db: Db, s: Session, id: ItemId, confirmed: bool)
    requires Coherent(db.users, s) && NonNegative(db.users)
    ensures Coherent(HandleRedeem(db, s, id, confirmed).1.users, HandleRedeem(db, s, id, confirmed).2)
    ensures NonNegative(HandleRedeem(db, s, id, confirmed).1.users)
    ensures UploadersRegistered(db) ==> UploadersRegistered(HandleRedeem(db, s, id, confirmed).1)
  {
  }

  /** A redeemed item leaves the catalog and is not queued for approval; every other
      catalog entry stays. */
  lemma RedeemLeavesCatalog(db: Db, s: Session, id: ItemId, confirmed: bool)
    requires HandleRedeem(db, s, id, confirmed).0 == Redeemed
    ensures forall d :: d in LandingPage.PublicCatalog(HandleRedeem(db, s, id, confirmed).1.items) ==> d.id != id
    ensures forall d :: d in AdminDashboard.PendingQueue(HandleRedeem(db, s, id, confirmed).1.items) ==> d.id != id
    ensures forall d ::
      d in LandingPage.PublicCatalog(db.items) && d.id != id ==>
      d in LandingPage.PublicCatalog(HandleRedeem(db, s, id, confirmed).1.items)
  {
  }

  /** As written, the session's balance is never refreshed: a user who signs in with
      exactly the cost redeems two items from registered uploaders, ends at zero, and
      the total of all balances grows by the cost. */
  lemma StaleBalanceRedeemsTwice(db: Db, s: Session, i: ItemId, j: ItemId)
    requires Coherent(db.users, s) && s.SignedIn? && s.userData.pointsBalance == Cost
    requires i < |db.items| && j < |db.items| && i != j && UploadersRegistered(db)
    requires db.items[i].uploaderId != s.user.uid && db.items[j].uploaderId != s.user.uid
    ensures var r1 := HandleRedeemAsWritten(db, s, i, true);
            var r2 := HandleRedeemAsWritten(r1.1, s, j, true);
      && r1.0 == Redeemed && r2.0 == Redeemed
      && r2.1.users[s.user.uid].pointsBalance == 0
      && TotalPoints(r2.1.users) == TotalPoints(db.users) + Cost
  {
    var uid := s.user.uid;
    var r1 := HandleRedeemAsWritten(db, s, i, true);
    TransferPoints(db, uid, Cost, i);
    TransferPoints(r1.1, uid, Cost, j);
  }

  /** With the session refreshed, the same user's second redeem is refused and the
      store keeps the state the first one left. */
  lemma RefreshedBalanceRefusesSecond(db: Db, s: Session, i: ItemId, j: ItemId)
    requires Coherent(db.users, s) && s.SignedIn? && s.userData.pointsBalance == Cost
    requires i < |db.items| && j < |db.items| && i != j
    requires db.items[i].uploaderId != s.user.uid && db.items[j].uploaderId != s.user.uid
    ensures var r1 := HandleRedeem(db, s, i, true);
            var r2 := HandleRedeem(r1.1, r1.2, j, true);
      && r1.0 == Redeemed && r2.0 == InsufficientPoints
      && r2.1 == r1.1 && r2.1.users[s.user.uid].pointsBalance == 0
  {
  }
}
