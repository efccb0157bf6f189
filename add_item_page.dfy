/** Listing a new item: validating the form and building the document to add. */
module AddItemPage {
  import opened Ledger
  import opened AuthContext
  import LandingPage
  import AdminDashboard

  /** The form's fields as submitted. `image` is the optional image URL. */
  datatype ItemForm = ItemForm(
    title: string,
    description: string,
    category: string,
    size: string,
    condition: string,
    image: string)

  datatype SubmitError = NotLoggedIn | MissingFields

  /** The image a listing gets when the form's image URL is left empty. */
  const PlaceholderImage: string := "https://placehold.co/400x400/1a202c/4ade80?text=ReWear"

  /** The submit handler's checks and the document it adds. A visitor who is not
      signed in is refused first; then an empty title or description is refused. A
      new listing awaits approval: it is in the admin queue and not in the catalog. */
  function NewItem(s: Session, form: ItemForm): (r: Result<Item, SubmitError>)
    ensures r == Err(NotLoggedIn) <==> s.SignedOut?
    ensures r == Err(MissingFields) <==> s.SignedIn? && (form.title == "" || form.description == "")
    ensures r.Ok? ==> AdminDashboard.Pending(r.value) && !LandingPage.Listed(r.value)
    ensures r.Ok? ==> |r.value.images| == 1 && r.value.images[0] != ""
    ensures r.Ok? && form.image != "" ==> r.value.images == [form.image]
    ensures r.Ok? && form.image == "" ==> r.value.images == [PlaceholderImage]
    ensures r.Ok? ==> r.value.uploaderId == s.user.uid && r.value.uploaderEmail == s.userData.email
    ensures r.Ok? ==> (
      && r.value.title == form.title && r.value.description == form.description
      && r.value.category == form.category && r.value.size == form.size
      && r.value.condition == form.condition)
  {
    if s.SignedOut? then Err(NotLoggedIn)
    else if form.title == "" || form.description == "" then Err(MissingFields)
    else
      Ok(Item(
        title := form.title,
        description := form.description,
        category := form.category,
        size := form.size,
        condition := form.condition,
        images := [if form.image != "" then form.image else PlaceholderImage],
        status := Available,
        isApproved := false,
        uploaderId := s.user.uid,
        uploaderEmail := s.userData.email))
  }

  /** Appending a pending item adds exactly its document to the approval queue, under
      the next id, and leaves the public catalog as it was. */
  lemma AddPendingItem(items: seq<Item>, item: Item)
    requires AdminDashboard.Pending(item)
    ensures AdminDashboard.PendingQueue(items + [item]) == AdminDashboard.PendingQueue(items) + [Doc(|items|, item)]
    ensures LandingPage.PublicCatalog(items + [item]) == LandingPage.PublicCatalog(items)
  {
  }
}
