/** The public catalog: the items that are approved and still available. */
module LandingPage {
  import opened Ledger

  /** The catalog query's two `where` conditions. */
  predicate Listed(item: Item) {
    item.isApproved && item.status == Available
  }

  /** The catalog. It is a function of the items collection, so computing it writes
      nothing. */
  function PublicCatalog(items: seq<Item>): (r: seq<Doc>)
    ensures forall d :: d in r <==>
      d.id < |items| && d.item == items[d.id] && d.item.isApproved && d.item.status == Available
    ensures forall i, j :: 0 <= i < j < |r| ==> r[i].id < r[j].id
  {
    Select(items, Listed)
  }
}
