/** The marketplace's persistent data: the `users` collection (keyed by uid) and the
    `items` collection, the records they hold, and the two things every page shares:
    the filter that turns a `where` query into a list of documents, and the total of
    all point balances. */
module Ledger {

  type Uid = string

  /** Items are never deleted and each `addDoc` creates one, so a document id is
      modelled as the item's position in the collection. */
  type ItemId = nat

  datatype Role = User | Admin

  datatype Status = Available | Swapped | Rejected

  datatype UserRecord = UserRecord(uid: Uid, email: string, pointsBalance: int, role: Role)

  datatype Item = Item(
    title: string,
    description: string,
    category: string,
    size: string,
    condition: string,
    images: seq<string>,
    status: Status,
    isApproved: bool,
    uploaderId: Uid,
    uploaderEmail: string)

  /** A query result entry: `{ id: doc.id, ...doc.data() }`. */
  datatype Doc = Doc(id: ItemId, item: Item)

  /** The Firestore database as the handlers see it. */
  datatype Db = Db(users: map<Uid, UserRecord>, items: seq<Item>)

  datatype Result<+T, +E> = Ok(value: T) | Err(error: E)

  /** Pages a guarded view sends the visitor to instead of running its query. */
  datatype Page = Landing | Login

  /** What a guarded page renders: a redirect, or the documents its query returned. */
  datatype View = Redirect(to: Page) | Shows(docs: seq<Doc>)

  /** The documents of `items` that satisfy `keep`, in document order: the meaning of
      `query(collection, where(...))` followed by `docs.map(...)`. */
  function Select(items: seq<Item>, keep: Item -> bool): (r: seq<Doc>)
    ensures forall d :: d in r ==> d.id < |items| && d.item == items[d.id] && keep(d.item)
    ensures forall id: ItemId :: id < |items| && keep(items[id]) ==> Doc(id, items[id]) in r
    ensures forall i, j :: 0 <= i < j < |r| ==> r[i].id < r[j].id
  {
    if |items| == 0 then []
    else
      var last := |items| - 1;
      Select(items[..last], keep) + (if keep(items[last]) then [Doc(last, items[last])] else [])
  }

  predicate NonNegative(users: map<Uid, UserRecord>) {
    forall u :: u in users ==> users[u].pointsBalance >= 0
  }

  /** Every listed item names an uploader that has a user record. */
  predicate UploadersRegistered(db: Db) {
    forall id: ItemId :: id < |db.items| ==> db.items[id].uploaderId in db.users
  }

  /** The sum of the point balances of the users in `uids`. */
  ghost function SumOver(users: map<Uid, UserRecord>, uids: set<Uid>): int
    requires uids <= users.Keys
    decreases uids
  {
    if uids == {} then 0
    else
      var u :| u in uids;
      users[u].pointsBalance + SumOver(users, uids - {u})
  }

  /** The sum of all point balances. */
  ghost function TotalPoints(users: map<Uid, UserRecord>): int {
    SumOver(users, users.Keys)
  }

  /** The sum can be split at any user, not only at the one the definition picks. */
  lemma {:induction false} SumOverPick(users: map<Uid, UserRecord>, uids: set<Uid>, k: Uid)
    requires uids <= users.Keys && k in uids
    ensures SumOver(users, uids) == users[k].pointsBalance + SumOver(users, uids - {k})
    decreases uids
  {
    var u :| u in uids && SumOver(users, uids) == users[u].pointsBalance + SumOver(users, uids - {u});
    if u != k {
      assert uids - {u} - {k} == uids - {k} - {u};
      SumOverPick(users, uids - {u}, k);
      SumOverPick(users, uids - {k}, u);
    }
  }

  /** The sum over `uids` reads only the records of `uids`. */
  lemma {:induction false} SumOverFrame(users: map<Uid, UserRecord>, users': map<Uid, UserRecord>, uids: set<Uid>)
    requires uids <= users.Keys && uids <= users'.Keys
    requires forall u :: u in uids ==> users[u].pointsBalance == users'[u].pointsBalance
    ensures SumOver(users, uids) == SumOver(users', uids)
    decreases uids
  {
    if uids != {} {
      var u :| u in uids;
      SumOverPick(users, uids, u);
      SumOverPick(users', uids, u);
      SumOverFrame(users, users', uids - {u});
    }
  }

  /** Writing one user record changes the total by the difference of the balances,
      and adding a new record adds its balance. */
  lemma TotalPointsUpdate(users: map<Uid, UserRecord>, k: Uid, r: UserRecord)
    ensures TotalPoints(users[k := r])
         == TotalPoints(users) - (if k in users then users[k].pointsBalance else 0) + r.pointsBalance
  {
    var users' := users[k := r];
    var others := users.Keys - {k};
    assert users'.Keys - {k} == others;
    SumOverPick(users', users'.Keys, k);
    SumOverFrame(users, users', others);
    if k in users {
      SumOverPick(users, users.Keys, k);
    } else {
      assert users.Keys == others;
    }
  }
}
