/** The signed-in user's own listings. */
module UserDashboard {
  import opened Ledger
  import opened AuthContext

  /** The items whose uploader is `uid`, whatever their status or approval. It is a
      function of the items collection, so computing it writes nothing. */
  function MyListings(items: seq<Item>, uid: Uid): (r: seq<Doc>)
    ensures forall d :: d in r <==> d.id < |items| && d.item == items[d.id] && d.item.uploaderId == uid
    ensures forall i, j :: 0 <= i < j < |r| ==> r[i].id < r[j].id
  {
    Select(items, (item: Item) => item.uploaderId == uid)
  }

  /** The dashboard: a visitor who is not signed in is sent to the login page and no
      query runs; a signed-in user sees exactly their own items. */
  function DashboardView(s: Session, items: seq<Item>): (v: View)
    ensures s.SignedOut? <==> v == Redirect(Login)
    ensures s.SignedIn? ==> v.Shows?
    ensures s.SignedIn? ==> forall d :: d in v.docs <==>
      d.id < |items| && d.item == items[d.id] && d.item.uploaderId == s.user.uid
  {
    if s.SignedOut? then Redirect(Login) else Shows(MyListings(items, s.user.uid))
  }
}
