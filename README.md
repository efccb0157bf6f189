# ReWear marketplace ledger, modelled in Dafny

ReWear is a clothing-exchange web app. Users list items, an admin approves them, and
other users redeem approved items for points. Its business logic lives in React event
handlers that read and write two Firestore collections: `users` (uid → email,
`pointsBalance`, `role`) and `items` (uploader, descriptive fields, `status` ∈
{available, swapped, rejected}, `isApproved`). This project models that logic as a
sequential, in-memory ledger:

- `Ledger` (`ledger.dfy`): the records and the database value, the `where`-query
  filter `Select` shared by every view, and the total of all point balances.
- `AuthContext` (`auth_context.dfy`): the session (`user` + `userData`) and the
  get-or-create of a user record on sign-in, with its 10-point sign-up bonus.
- `AddItemPage` (`add_item_page.dfy`): form validation and construction of a new listing.
- `ItemDetailPage` (`item_detail_page.dfy`): the page's redeem gate, the redeem handler's
  checks and its three writes, the source's handler as written, and the corrected one.
- `AdminDashboard` (`admin_dashboard.dfy`): the approval queue, the admin-only view, and
  approve / reject.
- `LandingPage` (`landing_page.dfy`): the public catalog.
- `UserDashboard` (`user_dashboard.dfy`): a user's own listings, and the redirect of a
  visitor who is not signed in.
- `Marketplace` (`marketplace.dfy`): class `Store`, the shared state. It holds the two
  collections and the session as fields. Its methods are the handlers, written as
  successive checks and writes. Each method except `SignOut`, whose effect is just the
  cleared session, is proved equal to its page module's definition
  and to keep the invariant `Valid()`: the session's record equals the stored one, no
  balance is negative, and every item's uploader is registered. `Store.Redeem` runs the
  corrected redeem handler, not the one the page has (see "## Findings"); the page's
  handler breaks the first part of `Valid()`. `RedeemScenario` runs a whole sign-up /
  list / approve / redeem session against a fresh store.

Document ids that `addDoc` generates are modelled as positions in the `items`
sequence. Items are never deleted, so a position identifies a document. A query result
is the `seq<Doc>` of matching `(id, item)` pairs in id order. The confirmation dialog
of a redeem is a boolean parameter.

The redeem handler checks neither the item's status nor its approval; only the page
hides its button for items that are not available (ItemDetailPage.js:117).
`handleApproval` checks neither the caller's role nor the item's state; only the admin
page reaches it. The model keeps both of these gaps.

## Model

| member | source | states |
|---|---|---|
| `Ledger.Select` | client/src/pages/LandingPage.js:16-24 | A `where` query followed by `docs.map`. A document is in the result exactly when it is in the collection under that id and satisfies the condition. Ids come in increasing order. |
| `LandingPage.PublicCatalog` | client/src/pages/LandingPage.js:16-24 | An entry is in the catalog iff its item is approved and available. So swapped and rejected items never appear, and every approved available item does. It is a function, so it writes nothing. |
| `AdminDashboard.PendingQueue` | client/src/pages/AdminDashboard.js:20-24 | An entry is queued iff its item is unapproved and available. |
| `AdminDashboard.AdminView` | client/src/pages/AdminDashboard.js:13-24 | Anyone without the admin role, signed in or not, is redirected to the landing page and sees no queue. An admin sees exactly the pending queue. |
| `AdminDashboard.Decide` | client/src/pages/AdminDashboard.js:34-44 | Approve sets `isApproved` and leaves every other field unchanged, status included. Reject sets status to rejected and leaves every other field unchanged, `isApproved` included. |
| `AdminDashboard.Decided` | client/src/pages/AdminDashboard.js:35-43 | The decided item becomes `Decide` of it. Every other item is unchanged. |
| `AdminDashboard.DecideIdempotent` | client/src/pages/AdminDashboard.js:37-43 | Deciding twice the same way equals deciding once. Approving an already approved item changes nothing. |
| `AdminDashboard.DecisionLeavesQueue` | client/src/pages/AdminDashboard.js:20-43 | After approve or reject the item is no longer queued. Every other queued item stays queued. |
| `AdminDashboard.ApprovalMovesToCatalog` | client/src/pages/AdminDashboard.js:37-43 | Approving a queued item puts it in the public catalog. A rejected item is not in the catalog. |
| `UserDashboard.MyListings` | client/src/pages/UserDashboard.js:21-24 | An entry is listed iff the user uploaded it, whatever its status or approval. It is a function, so it writes nothing. |
| `UserDashboard.DashboardView` | client/src/pages/UserDashboard.js:14-24 | With no user signed in, the view is exactly a redirect to login and no query runs. A signed-in user sees exactly their own items. |
| `AuthContext.GetOrCreate` | client/src/context/AuthContext.js:20-35 | An existing record is returned unchanged, with no write. A missing one is created with the identity's uid and email, 10 points and role `user`. No other record changes. |
| `AuthContext.SignIn` | client/src/context/AuthContext.js:17-37 | After sign-in, the session holds the identity and a copy of its stored record. |
| `AuthContext.SignInAgainChangesNothing` | client/src/context/AuthContext.js:21-35 | Signing in again with the same uid writes nothing and grants no second bonus. |
| `AuthContext.SignInPoints` | client/src/context/AuthContext.js:26-34 | A sign-in raises the total of all balances by 10 exactly when it creates the record, and by nothing otherwise. |
| `AuthContext.SignInKeepsNonNegative` | client/src/context/AuthContext.js:27-34 | A sign-in introduces no negative balance. |
| `AddItemPage.NewItem` | client/src/pages/AddItemPage.js:24-49 | A visitor who is not signed in is refused first, then an empty title or description. A new item has exactly one image: the given URL when it is non-empty, and the placeholder URL otherwise. It is pending approval and not in the catalog. Its uploader is the signed-in user. The form's fields are copied verbatim. |
| `AddItemPage.AddPendingItem` | client/src/pages/AddItemPage.js:44-53 | Adding a new item appends exactly its document, under the next id, to the approval queue. The catalog is unchanged. |
| `ItemDetailPage.OffersRedeem` | client/src/pages/ItemDetailPage.js:117-123 | The redeem button is offered exactly for an available item that the viewer did not upload (`isOwner`, line 92). A visitor who is not signed in is offered it too. Approval is not looked at. |
| `ItemDetailPage.RedeemCheck` | client/src/pages/ItemDetailPage.js:36-54 | The handler's refusals in its order: no signed-in user first, then a missing item. A redeem goes through exactly when the user is signed in, the item exists and is not theirs, the session's balance is at least 10, they confirm, and their record exists. |
| `ItemDetailPage.RedeemCheckIgnoresState` | client/src/pages/ItemDetailPage.js:39-54 | Changing the item's status or approval changes no outcome of the checks: the handler itself refuses neither a swapped, a rejected nor an unapproved item. |
| `ItemDetailPage.Transfer` | client/src/pages/ItemDetailPage.js:57-77 | The redeemer's record gets the believed balance minus 10. The uploader, when a different registered user, gains 10. Every other user is unchanged and no record is added. The item's status alone becomes swapped. |
| `ItemDetailPage.HandleRedeemAsWritten` | client/src/pages/ItemDetailPage.js:36-77 | The handler as written. A refused redeem changes nothing. A successful one sets the redeemer's stored balance to the session's copy minus 10, whatever the store held, and marks the item swapped. |
| `ItemDetailPage.HandleRedeem` | client/src/pages/ItemDetailPage.js:36-77 | The corrected handler. A refused redeem changes neither store nor session. A successful one leaves the session signed in as the same user, holding the stored record. |
| `ItemDetailPage.RedeemRefusals` | client/src/pages/ItemDetailPage.js:39-50 | A redeem is refused with no user signed in, on the user's own item, and with fewer than 10 points. |
| `ItemDetailPage.OfferedRedeemSucceeds` | client/src/pages/ItemDetailPage.js:117-127 | Suppose the page offers the button: the item is available and the viewer did not upload it. Then a signed-in user with at least 10 points succeeds when they confirm, and nothing happens when they decline. |
| `ItemDetailPage.RedeemEffects` | client/src/pages/ItemDetailPage.js:57-77 | On success the redeemer is not the uploader. The redeemer's balance drops by exactly 10 and stays non-negative. The uploader's rises by exactly 10 if their record exists. The item's status alone becomes swapped. No other user or item changes. |
| `ItemDetailPage.TransferPoints` | client/src/pages/ItemDetailPage.js:57-71 | The three writes change the total of all balances by the redeemer's new balance (believed balance minus 10) minus their stored one, plus 10 when the uploader has a record. |
| `ItemDetailPage.RedeemConservesPoints` | client/src/pages/ItemDetailPage.js:64-71 | A successful redeem conserves total points when the uploader's record exists. Otherwise 10 points leave the system. |
| `ItemDetailPage.RedeemKeepsInvariants` | client/src/pages/ItemDetailPage.js:47-61 | Every redeem attempt keeps balances non-negative, keeps every uploader registered, and keeps the session's copy equal to the stored record. |
| `ItemDetailPage.RedeemLeavesCatalog` | client/src/pages/ItemDetailPage.js:73-77 | A redeemed item leaves the catalog and is not in the approval queue. Every other catalog entry stays. |
| `ItemDetailPage.StaleBalanceRedeemsTwice` | client/src/pages/ItemDetailPage.js:47-61 | As written, a user holding exactly 10 points redeems two items and ends at 0 points. The total of all balances grows by 10. |
| `ItemDetailPage.RefreshedBalanceRefusesSecond` | client/src/pages/ItemDetailPage.js:47-61 | Corrected, the same user's second redeem is refused for insufficient points, and the store is left as the first redeem left it. |
| `Marketplace.Store.constructor` | client/src/context/AuthContext.js:11-12 | The store starts empty and signed out, and satisfies the invariant. |
| `Marketplace.Store.SignIn` | client/src/context/AuthContext.js:17-37 | The new session and users equal `AuthContext.SignIn` of the old users. Items are unchanged and the invariant is kept. The total rises by 10 exactly for a new user. |
| `Marketplace.Store.SignOut` | client/src/context/AuthContext.js:38-42 | The session becomes signed out: both `user` and `userData` are cleared. Nothing else changes. |
| `Marketplace.Store.SubmitItem` | client/src/pages/AddItemPage.js:18-53 | A refused submit changes nothing. A successful one appends exactly the built item, returns its id, and changes no user and no existing item. |
| `Marketplace.Store.Redeem` | client/src/pages/ItemDetailPage.js:36-86 | The outcome, collections and session equal `HandleRedeem` of the old state, and the invariant is kept. The total of all balances is unchanged, because every uploader is registered. |
| `Marketplace.Store.HandleApproval` | client/src/pages/AdminDashboard.js:34-49 | Decides an existing item as `Decided` says. A missing item fails and changes nothing. Users and session never change. |
| `Marketplace.RedeemScenario` | client/src/pages/ItemDetailPage.js:36-80 | In a fresh store, a user who signed up with the bonus redeems an approved item: they end at 0, the uploader at 20, and the item is swapped. Redeeming again is refused for insufficient points; the handler itself does not look at the status. |

## Left out

- Concurrency and atomicity are left out. The model is sequential: racing redeems, and two tabs, devices or users writing the same records, are not modelled. In particular, another user's redeem of this user's item raises their stored balance without touching their session's copy, so their next redeem overwrites the credit; the model's one session does not show this. The three writes of a redeem are applied in order with no failure between them.
- Firestore and Firebase Auth calls are not modelled as I/O. `getDoc`, `setDoc`, `updateDoc` and `addDoc` become reads and writes of the store's fields. `onSnapshot` live queries become functions of the current state.
- A failing write is modelled in only two places: a redeem whose redeemer record is missing (`WriteFailed`), and an approval of a missing item. Network and permission errors, which the handlers catch and report, are left out.
- Generated document ids are modelled as positions in the items sequence, and `createdAt` timestamps are left out. Both come from the SDK and the clock. So id order here is creation order. Real ids are random strings, and a query without `orderBy` returns documents in id order, so the real catalog and queues are not shown in creation order. The model's order claims hold for its position ids only.
- Direct swap requests are not modelled. The swap button is disabled as "Coming Soon" (ItemDetailPage.js:128) and nothing implements swaps.
- Marketplace.Store.Redeem: runs the corrected handler `ItemDetailPage.HandleRedeem`, which refreshes the session's copy of the redeemer's record after the writes. The page never does this, so the stored-state model does not exhibit the double redeem. The handler as written is `ItemDetailPage.HandleRedeemAsWritten`, and the double redeem is proved about it in `ItemDetailPage.StaleBalanceRedeemsTwice`.
- UI concerns are left out: `window.confirm` is a parameter, and `alert`, loading and error state, the delayed form reset, select-option lists and rendering are omitted.
- The initial custom-token sign-in (AuthContext.js:47-57) is left out. The identity provider's behaviour is outside the application.
- client/src/pages/LoginPage.js and client/src/pages/RegisterPage.js are not part of this model. They only wrap Firebase Auth, with a password-length check and error messages.
- client/src/App.js, client/src/components/Navbar.js, client/src/components/ItemCard.js and client/src/firebase.config.js are not part of this model. They do routing, rendering and configuration.
- JavaScript numbers are modelled as unbounded integers. Balances only move by 10, so no rounding or overflow arises.
- Roles other than `admin` and `user` are not represented. Every check the code makes compares with `'admin'`.
- The short window in which the auth callback has set `userData` but not yet `user` is not modelled. The session holds both or neither.
- The title and description checks are JavaScript truthiness tests. On a string, these are exactly "not empty", which is what the model checks.

## Findings

| source | as written | input that shows it | evidently intended | confidence | as-written member | corrected member |
|---|---|---|---|---|---|---|
| client/src/pages/ItemDetailPage.js:47-61 | The check and the debit both use `userData.pointsBalance`. That is the session's copy of the user record, read once at sign-in (AuthContext.js:21-24) and never refreshed, so a redeem leaves the copy stale. | A user signs in with 10 points and, without reloading the page or signing out, redeems two items by registered uploaders. Both redeems succeed and the balance ends at 0, so two items cost 10 points. The uploaders gain 20, so 10 points are created. | A user's second redeem in the same session checks and debits the balance their first redeem left. The corrected handler refreshes the session's copy of the redeemer's record after its own writes. This fixes the double redeem within one session only; writes from another session (another user's redeem crediting this one) still leave the copy stale, which falls under the concurrency line of "## Left out". | high (not executed) | `ItemDetailPage.HandleRedeemAsWritten`, shown by `ItemDetailPage.StaleBalanceRedeemsTwice` | `ItemDetailPage.HandleRedeem`, shown by `ItemDetailPage.RefreshedBalanceRefusesSecond` and `ItemDetailPage.RedeemConservesPoints`; used by `Marketplace.Store.Redeem` |
