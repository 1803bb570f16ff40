# store-ss reservation store, in Dafny

store-ss is a small clothing shop. Customers browse a catalog and reserve
one item to try on. An admin confirms, completes or cancels each
reservation and maintains the catalog. This project models the logic of
that shop as immutable datatypes and pure functions, with contracts and
lemmas about them:

- The in-memory store of `AppProvider`: products, reservations and the admin
  session, with `addProduct`, `updateProduct`, `deleteProduct`,
  `generateReservationNumber`, `addReservation`, `updateReservationStatus`
  and `login`. These are in modules `Catalog` and `AppStore`, built on the
  records of module `Domain`.
- The invariant that the store keeps under every action the application
  offers: at most one pending-or-confirmed reservation per product, and
  every such product is unavailable (module `Lifecycle`).
- The customer's reservation form: its initial values, edits, the
  validation order, the e-mail pattern, and the submit decision
  (module `ReservationForm`).
- The admin reservation list: the search and status filter, the label and
  badge tables, and the status buttons each status offers
  (module `AdminReservations`).
- The admin home page: the counters, the conversion rate and the five most
  recent reservations (module `AdminHome`).
- The admin product editor: the draft, the gender-to-category reset, the
  comma-separated list inputs, and create versus edit on save
  (module `AdminProducts`).
- The storefront: the home page search, the category sections, the
  category page's name formatter and filter, and the header's category
  links (module `Storefront`).
- The admin frame's guard, its link highlighting and logout, with the
  application's route table (module `AdminDashboard`).
- The seeded catalog, and the reservation life cycle played through on it
  (module `Seed`).

Some JavaScript built-ins are written out in Dafny. `trim` and the `\s`
class, `toLowerCase`/`toUpperCase` on Latin-1, `substring`, `includes`,
`startsWith`, and `split`/`join` on one character are in module `Text`.
`filter`, `find`, `new Set`, `sort` and `slice` are in module `Seqs`.

`Math.random()` and the clock are parameters. The random text `raw` stands
for `Math.random().toString(36)`, and `now` is the creation time as an
integer timestamp. `getProductInfo` in the admin reservation list is the
same first-match lookup as the one `addReservation` performs. Both are
`Catalog.FindProduct`.

## Model

| member | source | states |
|---|---|---|
| Text.Trim | src/components/ReservationForm.tsx:30-33 | the trimmed text is empty exactly when the input is all white space; otherwise it starts and ends with non-space, is the piece of the input right after the leading white space, and only white space follows it |
| Text.TrimPadded | src/pages/admin/AdminProducts.tsx:64 | an item with no outer white space trims to itself, also when a blank precedes it |
| Text.Lower | src/pages/HomePage.tsx:15 | lower-casing keeps the length and maps each character on its own |
| Text.Upper | src/context/AppContext.tsx:56 | upper-casing keeps the length and maps each character on its own |
| Text.Substring | src/context/AppContext.tsx:56 | `substring(start, end)` yields the characters from `start` on, with both ends clamped to the length |
| Text.IncludesIsOccurs | src/pages/HomePage.tsx:17-19 | `includes` holds exactly when the needle occurs as a contiguous piece of the text |
| Text.Split | src/pages/admin/AdminProducts.tsx:64 | `split` yields one more piece than there are separators, and no piece contains the separator |
| Text.JoinSplit | src/pages/admin/AdminProducts.tsx:64 | joining the pieces of a split with the same separator gives the original text back |
| Text.SplitJoin | src/pages/admin/AdminProducts.tsx:213 | splitting a join of separator-free pieces gives the pieces back |
| Seqs.Filter | src/context/AppContext.tsx:52 | `filter` keeps exactly the accepted elements, in their original order, each as often as the input holds it, and keeps everything when all are accepted |
| Seqs.Find | src/context/AppContext.tsx:62 | `find` yields nothing exactly when no element passes; otherwise it yields an element that passes, with none before it passing |
| Seqs.CountComplement | src/pages/admin/AdminHome.tsx:10-12 | every element is counted either by a test or by its negation |
| Seqs.Distinct | src/pages/HomePage.tsx:26 | `[...new Set(xs)]` holds the same values as `xs`, each once, in the order of their first appearance |
| Seqs.SortDesc | src/pages/admin/AdminHome.tsx:21-22 | the sorted copy is ordered newest first and is a permutation of the list |
| Seqs.Take | src/pages/admin/AdminHome.tsx:23 | `slice(0, n)` is the prefix of length min(n, length) |
| Seqs.TakeSortedKeepsLargest | src/pages/admin/AdminHome.tsx:21-23 | a prefix of a descending list holds its largest keys: every element left out is no larger than any element kept |
| Domain.ParseStatus | src/types/index.ts:23 | a status name is read back to the status with that name, and nothing else is a status |
| Catalog.AddProduct | src/context/AppContext.tsx:39-41 | the new product is appended, and every earlier product keeps its value and position |
| Catalog.UpdateProducts | src/context/AppContext.tsx:43-49 | the products with the id take the patched fields, all others are unchanged, and the length is kept |
| Catalog.UpdateUnknownIdIsNoOp | src/context/AppContext.tsx:45-47 | an update for an id no product has changes nothing |
| Catalog.UpdateProductsTwice | src/context/AppContext.tsx:43-49 | repeating an update that does not change ids gives the same catalog |
| Catalog.DeleteProduct | src/context/AppContext.tsx:51-53 | exactly the products with another id remain, in order and with their multiplicity; as many go as carry the id; an unknown id removes nothing |
| Catalog.FindProduct | src/pages/admin/AdminReservations.tsx:12-14 | the first product with the id, or nothing exactly when no product has it |
| AppStore.ReservationNumber | src/context/AppContext.tsx:55-57 | the number is `RES-` followed by at most six characters, six for a long enough random text. Each is the upper case of the random text's character from index 2 on. For a base-36 random text they are upper-case base-36 digits, and lower-casing them gives back `substring(2, 8)` |
| AppStore.AddReservation | src/context/AppContext.tsx:59-81 | refused exactly when the first product with the id is missing or unavailable. On success: one pending reservation carrying the request's fields is appended after the untouched old ones; the products with that id become unavailable and no other product changes; the returned number is the stored one |
| AppStore.FindReservation | src/context/AppContext.tsx:92 | the first reservation with the id, or nothing exactly when none has it |
| AppStore.SetStatus | src/context/AppContext.tsx:84-88 | only the reservations with the id change, and only in their status |
| AppStore.UpdateReservationStatus | src/context/AppContext.tsx:83-97 | only the status of matching reservations changes. Products change only for a cancellation of an existing reservation, and then exactly the products with that reservation's product id become available. The session is untouched |
| AppStore.FindAfterSetStatus | src/context/AppContext.tsx:84-92 | after a status change, the first reservation with the id is the old first one with the new status |
| AppStore.UpdateReservationStatusTwice | src/context/AppContext.tsx:83-97 | applying the same status change twice equals applying it once |
| AppStore.Login | src/context/AppContext.tsx:99-101 | logging in or out sets the admin flag and leaves products and reservations alone |
| AdminReservations.MatchesSearchIsOccurs | src/pages/admin/AdminReservations.tsx:18-21 | a reservation matches the search exactly when the term is empty, or when the lower-cased term occurs in the lower-cased name, number or e-mail |
| AdminReservations.FilterReservations | src/pages/admin/AdminReservations.tsx:17-26 | the list shows, in order and as often as the list holds them, exactly the reservations that match the search and whose status equals the selected one (or any status for `all`); an empty term with `all` shows everything |
| AdminReservations.TranslateStatus | src/pages/admin/AdminReservations.tsx:36-45 | a non-key is shown unchanged; a key gets a non-empty label that is not itself a key |
| AdminReservations.TranslateStatusDistinguishesKeys | src/pages/admin/AdminReservations.tsx:37-43 | different keys get different labels |
| AdminReservations.BadgeClass | src/pages/admin/AdminReservations.tsx:48-56 | exactly the non-status inputs, `all` included, get the gray default |
| AdminReservations.BadgeClassDistinguishesStatuses | src/pages/admin/AdminReservations.tsx:49-54 | different statuses get different badges |
| AdminReservations.OfferedActions | src/pages/admin/AdminReservations.tsx:189-225 | only pending and confirmed reservations offer buttons. Cancelling is always offered, confirming only from pending and completing only from confirmed. No button leads back to pending or keeps the status |
| AdminReservations.HandleStatusChange | src/pages/admin/AdminReservations.tsx:29-33 | nothing changes unless the admin confirms. A confirmed change gives the reservations with the id the new status and changes nothing else in any reservation. Products change only for a cancellation, and the session never changes |
| Lifecycle.HandleStatusChangePreserves | src/pages/admin/AdminReservations.tsx:29-33 | whatever the admin answers, a status button the page offers keeps a consistent store consistent |
| Lifecycle.AppendHolderPreserves | src/context/AppContext.tsx:64-78 | appending a fresh holder of a product nobody holds, and marking that product unavailable, keeps the store consistent |
| Lifecycle.ReservePreserves | src/context/AppContext.tsx:59-81 | a reservation with a fresh id keeps the store consistent, whether it is accepted or refused |
| Lifecycle.ChangeHolderPreserves | src/context/AppContext.tsx:83-97 | moving one holder to another status, and releasing its product on cancellation, keeps the store consistent |
| Lifecycle.AdminSetStatusPreserves | src/pages/admin/AdminReservations.tsx:189-225 | every status button the page offers keeps the store consistent |
| Lifecycle.StepPreservesConsistency | src/context/AppContext.tsx:39-101 | each offered action keeps the store consistent: reserving, the status buttons, deleting a product, creating a product nobody holds, and logging in or out |
| Lifecycle.RunPreservesConsistency | src/context/AppContext.tsx:59-97 | any sequence of offered actions from a consistent store keeps at most one pending-or-confirmed reservation per product |
| Lifecycle.NoReservationsIsConsistent | src/context/AppContext.tsx:20-21 | a store without reservations is consistent |
| ReservationForm.EmailShapeMatches | src/components/ReservationForm.tsx:35-36 | an address that passes the split-based test matches the e-mail pattern |
| ReservationForm.PatternHasEmailShape | src/components/ReservationForm.tsx:35-36 | a match of the e-mail pattern passes the split-based test |
| ReservationForm.EmailShapeIsPattern | src/components/ReservationForm.tsx:35-36 | the split-based test accepts exactly the strings the pattern matches |
| ReservationForm.ValidEmailFacts | src/components/ReservationForm.tsx:33-36 | an accepted address has exactly one `@`, no white space, is not blank, and equals its own trim |
| ReservationForm.BlankEmailIsInvalid | src/components/ReservationForm.tsx:33-36 | a blank address never matches the pattern |
| ReservationForm.First | src/components/ReservationForm.tsx:17-18 | `xs[0]` exists exactly for a non-empty list, and is then its first element |
| ReservationForm.InitialForm | src/components/ReservationForm.tsx:12-19 | the text fields start empty; size and colour start as the product's first ones, and are absent exactly when the product lists none |
| ReservationForm.HandleChange | src/components/ReservationForm.tsx:23-27 | the edited field takes the value, every other field keeps its value, and the error banner is cleared |
| ReservationForm.HandleChangeDeterminesForm | src/components/ReservationForm.tsx:25 | two forms that agree on the untouched fields agree after the same edit |
| ReservationForm.ValidateForm | src/components/ReservationForm.tsx:29-39 | each error is reported exactly when its field is the first blank one among name, phone, address and e-mail. There is no error exactly when all four are non-blank and the untrimmed e-mail matches the pattern |
| ReservationForm.RequestOf | src/components/ReservationForm.tsx:58-66 | the request is for the shown product; name, phone, e-mail, size and colour are the form's; the address travels in `girlfriendName` |
| ReservationForm.Submit | src/components/ReservationForm.tsx:41-74 | a validation error stops the submit. Then the page's own availability check runs, and then the store's check. Each failure happens exactly under its condition. A stored reservation has a matching e-mail, keeps the old reservations and is the pending reservation built from the form |
| ReservationForm.ValidFormForAvailableProductIsStored | src/components/ReservationForm.tsx:54-66 | a valid form for a product the store still offers is always stored |
| ReservationForm.FailedSubmitKeepsStore | src/components/ReservationForm.tsx:44-56 | a submit that does not store a reservation leaves the store unchanged |
| ReservationForm.ShownError | src/components/ReservationForm.tsx:69-70 | a banner is shown exactly when the submit failed |
| ReservationForm.ShownErrorDistinguishesFailures | src/components/ReservationForm.tsx:44-70 | different failures show different banners |
| AdminHome.ProductCounts | src/pages/admin/AdminHome.tsx:10-12 | available plus reserved is the total, and the reserved count, computed as a difference, is the number of unavailable products |
| AdminHome.ReservationCounts | src/pages/admin/AdminHome.tsx:14-18 | each of the four counters is the number of reservations in its status, and together they add up to the total |
| AdminHome.StatusCountsPartition | src/pages/admin/AdminHome.tsx:15-18 | every reservation is counted under exactly one of the four statuses |
| AdminHome.ConversionDivisor | src/pages/admin/AdminHome.tsx:131 | the divisor, which falls back to 1 when there are no reservations, is never zero and equals the total otherwise |
| AdminHome.ConversionRate | src/pages/admin/AdminHome.tsx:131 | the unrounded rate lies between 0 and 100. It is 0 with no reservations and 100 when all are completed. Otherwise, times the total, it is 100 times the completed count |
| AdminHome.RecentReservations | src/pages/admin/AdminHome.tsx:21-23 | min(5, n) reservations, newest first, all taken from the list, and no reservation left out is newer than one shown |
| AdminHome.RowProductName | src/pages/admin/AdminHome.tsx:146-163 | the name of the first product with the reserved id, or the placeholder exactly when the product is gone |
| AdminHome.HomeStatusLabel | src/pages/admin/AdminHome.tsx:38-46 | any text that is not a status name is shown unchanged |
| AdminHome.HomeLabelsAgree | src/pages/admin/AdminHome.tsx:38-46 | the home page and the reservation page label every stored status alike |
| AdminProducts.PatchOf | src/pages/admin/AdminProducts.tsx:30-31 | the patch of all fields of a product turns any product into it |
| AdminProducts.CategoriesFor | src/pages/admin/AdminProducts.tsx:24-28 | every gender offers a non-empty list, and all three offer trousers, pyjamas, underwear and shoes |
| AdminProducts.InitialDraftCategoryIsOffered | src/pages/admin/AdminProducts.tsx:12-28 | a new draft's category is the first its gender offers |
| AdminProducts.EditClick | src/pages/admin/AdminProducts.tsx:30-34 | editing opens a draft holding every field of the product, its id included |
| AdminProducts.CreateClick | src/pages/admin/AdminProducts.tsx:36-40 | creating opens the initial draft, which has no id |
| AdminProducts.CancelEdit | src/pages/admin/AdminProducts.tsx:42-46 | cancelling closes both modes and clears the draft |
| AdminProducts.SplitTrim | src/pages/admin/AdminProducts.tsx:63-68 | one trimmed item per comma-separated piece: as many items as commas plus one, none containing a comma |
| AdminProducts.Padded | src/pages/admin/AdminProducts.tsx:213 | `join(', ')` puts one blank before every item after the first |
| AdminProducts.SplitTrimListText | src/pages/admin/AdminProducts.tsx:209-229 | reading back the text a sizes or colours box shows restores a non-empty list of comma-free, trimmed items |
| AdminProducts.EmptiedListIsOneBlank | src/pages/admin/AdminProducts.tsx:64 | an emptied box gives one empty item, not an empty list |
| AdminProducts.ChangeDraft | src/pages/admin/AdminProducts.tsx:48-81 | each input overwrites only its own field (price with 0 for NaN). Choosing a gender also resets the category to the first one that gender offers. The id never changes |
| AdminProducts.InputChange | src/pages/admin/AdminProducts.tsx:53-79 | an input keeps the mode and always leaves a draft open, starting from an empty one when there was none. The draft keeps its id, so a later save patches the same product |
| AdminProducts.NewProductId | src/pages/admin/AdminProducts.tsx:92 | the id is the random text from index 2 on, cut to nine characters; for a shorter text it is everything after the first two characters |
| AdminProducts.NewProduct | src/pages/admin/AdminProducts.tsx:89-93 | a created product is the draft over the defaults, with the new id |
| AdminProducts.SubmitProductForm | src/pages/admin/AdminProducts.tsx:83-103 | without a draft nothing happens. Otherwise the editor closes. A create appends the new product; an edit whose draft has an id patches the products with that id; anything else leaves the catalog |
| AdminProducts.EditInputSavePatchesSameProduct | src/pages/admin/AdminProducts.tsx:96-97 | editing a product, changing one input and saving patches exactly the products with the edited product's id |
| AdminProducts.SaveUnchangedIsNoOp | src/pages/admin/AdminProducts.tsx:96-97 | opening a product and saving it unchanged leaves a catalog with unique ids as it was |
| AdminProducts.HandleDelete | src/pages/admin/AdminProducts.tsx:105-109 | a product goes only when the admin confirms. Then exactly the products with that id go, and the rest stay in order with their multiplicity |
| Storefront.MatchesTermIsOccurs | src/pages/HomePage.tsx:16-20 | a product matches exactly when the term occurs in its lower-cased name, description or category |
| Storefront.SearchProducts | src/pages/HomePage.tsx:11-23 | a blank term keeps the whole catalog. Otherwise exactly the products whose name, description or category contains the lower-cased untrimmed term are kept, in catalog order and with their multiplicity |
| Storefront.PaddedTermNeedsBlank | src/pages/HomePage.tsx:15-19 | a term with a leading blank finds only products whose texts hold a blank |
| Storefront.CategoryList | src/pages/HomePage.tsx:26 | the categories of the products, position by position |
| Storefront.Categories | src/pages/HomePage.tsx:26 | each category of the catalog is listed once, in the order the catalog first mentions it |
| Storefront.CategorySections | src/pages/HomePage.tsx:77-78 | one section per category, in that order. Each holds exactly the products of its category, in catalog order and with their multiplicity |
| Storefront.EachProductInOneSection | src/pages/HomePage.tsx:77-86 | every product lands in exactly one section |
| Storefront.HomeProducts | src/pages/HomePage.tsx:70-88 | the search results are shown exactly when the box holds any text, blanks included; otherwise the sections are shown |
| Storefront.BlankSearchListsEverything | src/pages/HomePage.tsx:12-13 | a box holding only blanks shows the whole catalog as results |
| Storefront.FormatName | src/pages/CategoryPage.tsx:12-15 | a missing or empty name gives the empty text. Otherwise only the first character is upper-cased, and under the Latin-1 mapping of `Text.Upper` the length is kept |
| Storefront.CategoryProducts | src/pages/CategoryPage.tsx:21-23 | exactly the products whose gender is the route's and whose category is the formatted route category, in order and with their multiplicity |
| Storefront.HeaderMatchesEditor | src/components/Header.tsx:10-45 | for each gender the header links the same categories as the editor offers, in the same order |
| Storefront.TrousersLinkListsNothing | src/pages/CategoryPage.tsx:14-22 | the trousers link of every gender lists no trousers, because the formatted slug lacks the cedilla |
| Storefront.HeaderSlugsDistinct | src/components/Header.tsx:10-45 | one gender's link paths are distinct |
| Storefront.CategoryForSlug | src/components/Header.tsx:10-45 | a slug is known exactly when a link of that gender has it, and it names that link's category |
| Storefront.CategoryProductsBySlug | src/pages/CategoryPage.tsx:21-23 | with the slug looked up in the header's table: exactly the products of the gender and the linked category, in order and with their multiplicity |
| Storefront.EveryLinkListsItsCategory | src/pages/CategoryPage.tsx:17-23 | every header link lists exactly the products of its own gender and category |
| AdminDashboard.Route | src/App.tsx:26-55 | only `/admin-login` shows the login form, only the three admin paths show admin pages, and only `/` shows the home page |
| AdminDashboard.CategoryPathRoutes | src/App.tsx:47 | `/categoria/<gender>/<category>`, with segments free of slashes and percent escapes, reaches the category page with those parameters |
| AdminDashboard.GuardAsWritten | src/pages/admin/AdminDashboard.tsx:12-14 | exactly a non-admin visitor is redirected, to `/login` |
| AdminDashboard.GuardAsWrittenReachesNotFound | src/pages/admin/AdminDashboard.tsx:13 | that redirect lands on the not-found page |
| AdminDashboard.Guard | src/pages/admin/AdminDashboard.tsx:12-14 | exactly a non-admin visitor is redirected, and to the login form's route |
| AdminDashboard.IsActiveIsPrefixAtSlash | src/pages/admin/AdminDashboard.tsx:17-19 | a path is active exactly when the current path extends it by nothing or at a slash; a sibling such as `/admin/produtos-x` is not |
| AdminDashboard.DashboardHighlightedOnlyAtIndex | src/pages/admin/AdminDashboard.tsx:109 | the dashboard link is highlighted exactly on `/admin` |
| AdminDashboard.AtMostOneHighlighted | src/pages/admin/AdminDashboard.tsx:106-136 | no path highlights two sidebar links |
| AdminDashboard.AdminPagesHighlightTheirLink | src/pages/admin/AdminDashboard.tsx:106-136 | each sidebar link is highlighted on its own path, which is an admin route |
| AdminDashboard.Logout | src/pages/admin/AdminDashboard.tsx:21-23 | logging out clears the admin flag, keeps the data, and the guard then turns the visitor away |
| Seed.SeedIdsDistinct | src/data/mockData.ts:3-75 | the seeded products have distinct ids |
| Seed.InitialStoreConsistent | src/context/AppContext.tsx:25-31 | the start-up state is consistent |
| Seed.FindSeeded | src/context/AppContext.tsx:62 | in a catalog with unique ids, the lookup of a product's id finds that product |
| Seed.FirstSeedFound | src/data/mockData.ts:3-15 | there are six seeded products, and id `1` finds the first one, which is available |
| Seed.SampleNumber | src/context/AppContext.tsx:56 | the random text `0.k3j9x2ab` gives the number `RES-K3J9X2` |
| Seed.ScenarioReserve | src/context/AppContext.tsx:59-81 | reserving product 1 succeeds, returns the number, stores one pending reservation and makes the product unavailable |
| Seed.AfterReserveFacts | src/context/AppContext.tsx:68-78 | the state after that reservation holds one pending reservation of product 1, which is unavailable |
| Seed.ScenarioReserveTwice | src/context/AppContext.tsx:62-66 | a second reservation of the same product is refused |
| Seed.FirstHeldIsRefused | src/context/AppContext.tsx:62-66 | a request for the id of a first product that is unavailable is refused |
| Seed.ConfirmThenComplete | src/context/AppContext.tsx:83-97 | confirming and then completing the only reservation changes no product and leaves no reservation holding one |
| Seed.ScenarioComplete | src/context/AppContext.tsx:83-97 | after confirming and completing, the product stays unavailable although no reservation holds it |
| Seed.ScenarioCancel | src/context/AppContext.tsx:90-95 | cancelling the reservation makes the product available again |
| Seed.ScenarioDeleteReserved | src/context/AppContext.tsx:51-53 | deleting a reserved product leaves its reservation pointing to a product that no longer exists |
| Seed.ReloadReleasesHeldProduct | src/context/AppContext.tsx:25-31 | after a reload the saved reservation still holds product 1, the reseeded product is available, and the store is no longer consistent |
| Seed.SeededTrousersLink | src/pages/CategoryPage.tsx:21-23 | on the seeded catalog the young people's trousers link lists nothing as written, and lists product 3 with the slug looked up |
| Seed.TrousersLinkOn | src/pages/CategoryPage.tsx:21-23 | in any catalog, a young people's trousers product is missed by the `calcas` link as written and found when the slug is looked up |

## Left out

- Persistence: loading saved reservations from `localStorage` and saving them as JSON (src/context/AppContext.tsx:25-37) is browser I/O. The model starts from the seeded catalog with no reservations. `Seed.ReloadReleasesHeldProduct` shows what a reload with saved reservations does to the invariant.
- Randomness and the clock are parameters: `raw` for `Math.random().toString(36)` and `now` for the creation time. The model does not promise that generated ids or numbers are unique. `Lifecycle` instead requires a fresh reservation id for each reservation.
- Price parsing (src/pages/admin/AdminProducts.tsx:51-56) is left out because it is floating-point text handling. The editor receives the parsed value, with `None` for `NaN`. Price display with `toFixed(2)` is left out too.
- AdminHome.ConversionRate: the rate is real arithmetic, without the `toFixed(0)` rounding the page applies.
- Date formatting with `Intl.DateTimeFormat` is a library call. `createdAt` is an integer timestamp, which is what `getTime()` yields for an ISO date.
- Text.Lower: case mapping covers Basic Latin and the Latin-1 Supplement only. Full Unicode case mapping is a library table. Characters outside that range map to themselves, and so do the Latin-1 letters whose upper case lies outside Latin-1 (`ß`, `ÿ`, `µ`).
- Text.Upper: the same Latin-1 restriction as `Text.Lower`.
- Seqs.SortDesc: stability and the exact comparator arithmetic are not stated. The contract says the result is sorted newest first and is a permutation, which is what the page relies on.
- React mechanics are left out: state batching, effects, rendering, `window.confirm` (a boolean parameter), `window.scrollTo`, `isSubmitting`, the mobile menu toggle, and navigation after success. `addReservation` and its `updateProduct` call are modelled as one step from the same snapshot.
- The admin login page (src/pages/LoginPage.tsx) compares a password against a configured secret. It is not modelled. `AppStore.Login` is the effect of a successful login.
- AdminDashboard.CategoryPathRoutes: promised only for segments without `%`. The router percent-decodes the `:productId`, `:gender` and `:categoryName` parameters before the page reads them, so `/categoria/jovens/cal%C3%A7as` reaches the page as `calças`. `AdminDashboard.Route` keeps the raw segments and does not model this decoding.
- Route matching in `AdminDashboard.Route` is exact. Trailing slashes and upper-case paths, which the router also accepts, are not modelled.
- Header markup, the footer, product cards, the product detail page and the not-found page are static rendering with no rules of their own. Only the header's category link table is modelled, because the category page depends on it.
- Seed.MockProducts: the image addresses are shortened to their photo number. Nothing reads them.
- AdminReservations.TranslateStatus: the source's `statusMap[status] || status` also finds keys inherited from `Object.prototype` (`toString`, `constructor`, `valueOf`, `__proto__`, ...), and returns a function or object for them. The model treats those inputs like any other unknown text. Every call site passes a status name or `all`.
- AdminReservations.BadgeClass: the same inherited-key lookup as `AdminReservations.TranslateStatus`. The model gives those inputs the gray default; the source gives them a function or object.
- AdminHome.HomeStatusLabel: the same inherited-key lookup as `AdminReservations.TranslateStatus`. The model shows those inputs unchanged; the page only ever passes a stored status.
- ReservationForm.ShownError: the fallback message for a non-`Error` exception is unreachable, because every thrown value in this flow is an `Error`.
- Lifecycle.StepPreservesConsistency: an admin product edit can set `available` back to true on a held product, and no button stops that. The invariant is stated for the actions that keep it: reserving, the offered status buttons, deleting a product, creating a product nobody holds, and logging in or out.
- Availability is not "held by an active reservation": completing a reservation does not release its product (`Seed.ScenarioComplete`). The model follows the code. Only the direction "held implies unavailable" is an invariant (`Lifecycle.Consistent`).

## Findings

| source | as written | input that shows it | evidently intended | confidence | as-written member | corrected member |
|---|---|---|---|---|---|---|
| src/pages/admin/AdminDashboard.tsx:12-14 | a visitor who is not an admin is redirected to `/login`, which no route of src/App.tsx:26-55 serves | any non-admin user opening `/admin`: the redirect lands on the not-found page | redirect to `/admin-login`, where the login page is served | high (not executed) | AdminDashboard.GuardAsWrittenReachesNotFound | AdminDashboard.Guard |
| src/pages/CategoryPage.tsx:12-23 | the route's category slug is only capitalised, then compared with the product's category | `/categoria/jovens/calcas` from src/components/Header.tsx:38: `formatName("calcas")` is `"Calcas"`, so the seeded product 3 (`Calças`, jovens) is not listed | map the slug back to the header's category name before filtering | high (not executed) | Storefront.TrousersLinkListsNothing | Storefront.CategoryProductsBySlug |
