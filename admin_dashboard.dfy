/** The admin panel: the queue of listings awaiting a decision, and the approve /
    reject decision itself. */
module AdminDashboard {
  import opened Ledger
  import opened AuthContext
  import LandingPage

  /** The queue query's two `where` conditions: not yet approved, not yet rejected
      (or swapped). */
  predicate Pending(item: Item) {
    !item.isApproved && item.status == Available
  }

  /** The approval queue, a function of the items collection. */
  function PendingQueue(items: seq<Item>): (r: seq<Doc>)
    ensures forall d :: d in r <==>
      d.id < |items| && d.item == items[d.id] && !d.item.isApproved && d.item.status == Available
    ensures forall i, j :: 0 <= i < j < |r| ==> r[i].id < r[j].id
  {
    Select(items, Pending)
  }

  /** The admin panel: anyone whose user record does not carry the admin role is
      sent to the landing page and sees no queue. */
  function AdminView(s: Session, items: seq<Item>): (v: View)
    ensures !(s.SignedIn? && s.userData.role == Admin) <==> v == Redirect(Landing)
    ensures s.SignedIn? && s.userData.role == Admin ==> v.Shows?
    ensures s.SignedIn? && s.userData.role == Admin ==> forall d :: d in v.docs <==> d in PendingQueue(items)
  {
    if s.SignedIn? && s.userData.role == Admin then Shows(PendingQueue(items)) else Redirect(Landing)
  }

  /** The document written by an approve (`isApproved` set) or a reject (`status` set
      to rejected). The handler checks neither the caller's role nor the item's
      current state. */
  function Decide(item: Item, shouldApprove: bool): (r: Item)
    ensures shouldApprove ==> r.isApproved && r.(isApproved := item.isApproved) == item
    ensures !shouldApprove ==> r.status == Rejected && r.(status := item.status) == item
  {
    if shouldApprove then item.(isApproved := true) else item.(status := Rejected)
  }

  /** The items collection after a decision on an existing item. */
  function Decided(items: seq<Item>, id: ItemId, shouldApprove: bool): (r: seq<Item>)
    requires id < |items|
    ensures |r| == |items| && r[id] == Decide(items[id], shouldApprove)
    ensures forall j :: 0 <= j < |items| && j != id ==> r[j] == items[j]
  {
    items[id := Decide(items[id], shouldApprove)]
  }

  /** Deciding twice the same way is deciding once: approving an approved item, or
      rejecting a rejected one, changes nothing. */
  lemma DecideIdempotent(item: Item, shouldApprove: bool)
    ensures Decide(Decide(item, shouldApprove), shouldApprove) == Decide(item, shouldApprove)
    ensures shouldApprove && item.isApproved ==> Decide(item, true) == item
    ensures !shouldApprove && item.status == Rejected ==> Decide(item, false) == item
  {
  }

  /** After either decision the item is out of the queue, and every other queued item
      is still there. */
  lemma {:induction false} DecisionLeavesQueue(items: seq<Item>, id: ItemId, shouldApprove: bool)
    requires id < |items|
    ensures forall d :: d in PendingQueue(Decided(items, id, shouldApprove)) ==> d.id != id
    ensures forall d :: d in PendingQueue(items) && d.id != id ==> d in PendingQueue(Decided(items, id, shouldApprove))
  {
  }

  /** Approving a queued item moves it from the queue into the public catalog, and a
      rejected item is in neither. */
  lemma ApprovalMovesToCatalog(items: seq<Item>, id: ItemId)
    requires id < |items| && Pending(items[id])
    ensures Doc(id, items[id]) in PendingQueue(items)
    ensures Doc(id, Decide(items[id], true)) in LandingPage.PublicCatalog(Decided(items, id, true))
    ensures forall d :: d in LandingPage.PublicCatalog(Decided(items, id, false)) ==> d.id != id
  {
  }
}
