# Booking system: schema, routes and admin list logic

This project models the one resource of a small booking application: a `Booking`
record. It covers three layers:

- **The schema** (`Bookings`). The Mongoose schema's declarative rules become the
  explicit function `Normalise`:
  - `required` on `name`, `email`, `phone`, `service`, `date` and `time`;
  - `trim` on the first four and on `notes`, and `lowercase` on `email`;
  - the `notes`, `status` and `createdAt` defaults;
  - the three-value `status` enumeration.

  `Normalise` either returns the record the store would save or lists every
  offending field. JavaScript's `String.prototype.trim` is restated in `Text`
  with the full ECMAScript white-space and line-terminator set.
- **The routes** (`BookingRoutes`). The four Express handlers, POST `/`, GET `/`,
  DELETE `/:id` and PATCH `/:id/status`, are pure functions. Each takes an
  explicit store (a sequence of records in insertion order) and returns the
  HTTP status code, the JSON envelope and the store afterwards. Three things
  are parameters:
  - the identity generator (`freshId`);
  - the clock (`now`);
  - whether the database can be reached (`online`).

  When the database cannot be reached, a handler takes its `catch` branch.
- **The admin dashboard** (`AdminDashboard`). The page's list logic becomes
  pure sequence functions:
  - the status filter and the counters;
  - the list update after a fetch;
  - the optimistic updates after a delete and after a status change.

  An HTTP exchange is given as the reply it produced. The client rejects a
  missing reply or a non-2xx code, which is the HTTP client's default.

`Listing` holds the newest-first order of the list handler and the
subsequence facts. `Consistency` ties the layers together. If the dashboard
shows the store's listing, then after any answer to a delete or a status
change its local list equals a fresh listing of the store the server ends
with, up to the order of bookings with equal `createdAt`. The model fixes one
order for such ties, and the store promises none.

Where the obvious reading and the code differ, the model follows the code:

- A PATCH with a status outside the enumeration is answered 500, not 400. The
  update validators throw into the `catch` branch, and they run before the
  record is looked up, so this holds even for an identity that does not
  exist.
- Every create failure is answered 400: validation, the database and a
  duplicate identity alike.
- The backend has no transition guard. Any enumerated status replaces any
  other.
- `date` and `time` are not trimmed, so a blank but non-empty date or time
  is accepted.

## Model

| member | source | states |
|---|---|---|
| Text.TrimStart | backend/models/Booking.js:9 | leading trim never lengthens the text and leaves no white space at its start |
| Text.TrimEnd | backend/models/Booking.js:9 | trailing trim never lengthens the text and leaves no white space at its end |
| Text.TrimStartIsSuffix | backend/models/Booking.js:9 | leading trim removes exactly a white-space prefix and keeps the rest verbatim |
| Text.TrimEndIsPrefix | backend/models/Booking.js:9 | trailing trim removes exactly a white-space suffix and keeps the rest verbatim |
| Text.Trim | backend/models/Booking.js:9 | a trimmed value has no surrounding white space and is never longer than the input |
| Text.TrimIsSlice | backend/models/Booking.js:9 | the trimmed value is a contiguous slice of the input with only white space cut on either side |
| Text.TrimOfTrimmed | backend/models/Booking.js:9 | trimming text with no surrounding white space changes nothing |
| Text.TrimIdempotent | backend/models/Booking.js:9 | trimming twice equals trimming once |
| Text.TrimStartEmptyIff | backend/models/Booking.js:9 | leading trim empties the text exactly when it is all white space |
| Text.TrimEndEmptyIff | backend/models/Booking.js:9 | trailing trim empties the text exactly when it is all white space |
| Text.TrimEmptyIff | backend/models/Booking.js:9 | a value trims to empty exactly when it is all white space, so only such values fail `required` after trimming |
| Text.LowerChar | backend/models/Booking.js:15 | an upper-case ASCII letter becomes the lower-case letter at the same alphabet position; no upper-case letter is returned; every other character is kept |
| Text.Lower | backend/models/Booking.js:15 | the `lowercase` setter keeps the length, turns every upper-case ASCII letter into the lower-case letter at the same alphabet position, and keeps every other character |
| Text.LowerHasNoUpper | backend/models/Booking.js:15 | a lower-cased value has no upper-case letter left |
| Text.LowerIdempotent | backend/models/Booking.js:15 | lower-casing twice equals lower-casing once |
| Text.LowerOfLower | backend/models/Booking.js:15 | lower-casing text without upper-case letters changes nothing |
| Text.LowerKeepsTrimmed | backend/models/Booking.js:14-15 | lower-casing a trimmed value leaves it trimmed |
| Text.LowerCharWhitespace | backend/models/Booking.js:14-15 | lower-casing neither creates nor removes white space |
| Text.TrimStartLower | backend/models/Booking.js:14-15 | leading trim and lower-casing commute |
| Text.TrimEndLower | backend/models/Booking.js:14-15 | trailing trim and lower-casing commute |
| Text.TrimLowerCommute | backend/models/Booking.js:14-15 | the order in which the email's `trim` and `lowercase` setters run does not matter |
| Bookings.MissingErrors | backend/models/Booking.js:6-34 | reports a `required` error for exactly those listed fields that are absent or empty after their setters |
| Bookings.ErrorsOf | backend/models/Booking.js:6-44 | every missing required field and any out-of-enum status is reported; the list is empty exactly for a complete body with an allowed or absent status |
| Bookings.Build | backend/models/Booking.js:6-48 | a valid body becomes a normalised record: trimmed fields trimmed, email trimmed then lower-cased, date and time verbatim, notes `""`, status `pending` and createdAt the clock when absent |
| Bookings.Normalise | backend/models/Booking.js:6-48 | succeeds exactly when all six required fields are present and non-empty after trimming and any status is in the enumeration; on failure it names every offending field; on success it returns the normalised record with the given identity and the defaults filled in |
| Bookings.CompleteIff | backend/models/Booking.js:6-34 | a body is complete exactly when none of the six required fields is missing |
| Bookings.MissingErrorsOfAll | backend/models/Booking.js:6-34 | checking all six required fields reports exactly the missing ones and nothing when the body is complete |
| Bookings.EmailFixpoint | backend/models/Booking.js:11-16 | a stored email passes through trim-then-lowercase unchanged |
| Bookings.NormalisedIsFixpoint | backend/models/Booking.js:6-48 | resubmitting a normalised record yields exactly that record |
| Bookings.NormalisedIsComplete | backend/models/Booking.js:6-34 | a resubmitted normalised record has every required field present and non-empty after its setters |
| Bookings.NormalisedRebuilds | backend/models/Booking.js:6-48 | building a resubmitted normalised record with its own identity gives the record back |
| Bookings.NormaliseIdempotent | backend/models/Booking.js:6-48 | normalising the result of a successful normalisation gives it back unchanged, whatever the clock then says |
| Bookings.BlankFieldRejected | backend/models/Booking.js:6-25 | a whitespace-only name, email, phone or service is rejected with a `required` error for that field |
| Bookings.BlankDateAccepted | backend/models/Booking.js:27-30 | a whitespace-only but non-empty date is accepted and stored exactly as supplied |
| Bookings.BlankTimeAccepted | backend/models/Booking.js:31-34 | a whitespace-only but non-empty time is accepted and stored exactly as supplied |
| Listing.Insert | backend/routes/bookings.js:35 | insertion adds exactly the one booking, keeping every other |
| Listing.SortNewestFirst | backend/routes/bookings.js:35 | the listing is a permutation of its input in non-increasing `createdAt` order |
| Listing.TailNewestFirst | backend/routes/bookings.js:35 | the tail of a newest-first list is newest first |
| Listing.ConsNewestFirst | backend/routes/bookings.js:35 | a booking no older than anything in a newest-first list may go in front of it |
| Listing.InsertNoneNewer | backend/routes/bookings.js:35 | inserting keeps every booking no newer than a bound that the list and the new booking respect |
| Listing.InsertKeepsNewestFirst | backend/routes/bookings.js:35 | inserting into a newest-first list keeps it newest first |
| Listing.SubsequenceKeepsNewestFirst | frontend/src/pages/AdminDashboard.js:75-78 | leaving bookings out of a newest-first list keeps it newest first |
| Listing.SubsequenceElements | frontend/src/pages/AdminDashboard.js:75-78 | every booking of a subsequence is a booking of the whole |
| Listing.SubsequenceOfCons | frontend/src/pages/AdminDashboard.js:75-78 | a subsequence of the tail is a subsequence of the whole list |
| Listing.SubsequenceDropHead | frontend/src/pages/AdminDashboard.js:75-78 | leaving out the first element of a subsequence leaves a subsequence |
| BookingRoutes.Find | backend/routes/bookings.js:57 | finds the first record carrying the identity, and finds nothing exactly when no record carries it |
| BookingRoutes.Create | backend/routes/bookings.js:7-29 | 201 with `success` exactly when the body is valid, the database is reachable and the fresh identity is unused; then the store gains exactly the normalised record, which is the `data`; otherwise 400 without `success`, with the validation errors when there are any, and the store unchanged; a valid store stays valid |
| BookingRoutes.AppendKeepsValid | backend/routes/bookings.js:10-13 | appending a normalised record under an unused identity keeps the store valid |
| BookingRoutes.List | backend/routes/bookings.js:32-51 | 200 with every stored record newest first, as a permutation of the store, and `count` equal to the number listed; 500 when the database is unreachable; the store never changes |
| BookingRoutes.Delete | backend/routes/bookings.js:54-80 | 500 when unreachable, 404 for an absent identity, otherwise 200 with the removed record as `data` and the store minus exactly that record; on every non-200 answer the store is unchanged; afterwards the identity is gone and a valid store stays valid |
| BookingRoutes.RemoveAtFacts | backend/routes/bookings.js:57 | removing one position removes exactly that record's copy from the store |
| BookingRoutes.RemoveAtKeepsValid | backend/routes/bookings.js:57 | removing a record from a valid store leaves it valid and without that identity |
| BookingRoutes.SetStatus | backend/routes/bookings.js:83-113 | an out-of-enum value or an unreachable database is a 500 without `success`, even for an absent identity; an absent identity is a 404; otherwise 200 with the updated record; only `status` of the found record changes, nothing else does; a valid store stays valid |
| BookingRoutes.SetStatusTouchesOnlyThatId | backend/routes/bookings.js:86-90 | with unique identities, a successful update rewrites the status of the record carrying the identity and leaves every other record as it was |
| BookingRoutes.CreateThenList | backend/routes/bookings.js:7-42 | after a successful create the next listing holds the old records plus exactly the new one, and the new one is the only record with its identity |
| BookingRoutes.DeleteMissingLeavesListing | backend/routes/bookings.js:57-64 | deleting an absent identity answers 404 and the next listing is the same as before |
| AdminDashboard.StatusesOf | frontend/src/pages/AdminDashboard.js:81-86 | the status of each booking, position by position |
| AdminDashboard.OfStatus | frontend/src/pages/AdminDashboard.js:77 | every selected booking has the requested status and no more are selected than the list holds |
| AdminDashboard.OfStatusIsSubsequence | frontend/src/pages/AdminDashboard.js:75-78 | selecting by status keeps the selected bookings in their order |
| AdminDashboard.OfStatusCounts | frontend/src/pages/AdminDashboard.js:75-78 | selecting by status keeps every booking with that status as often as the list holds it, and nothing else |
| AdminDashboard.OfStatusLength | frontend/src/pages/AdminDashboard.js:83-85 | as many bookings are selected as the status occurs in the list |
| AdminDashboard.FilterBookings | frontend/src/pages/AdminDashboard.js:75-78 | the "all" filter shows the whole list; any other filter shows the order-preserving subsequence of exactly the bookings with that status |
| AdminDashboard.FilteredStaysNewestFirst | frontend/src/pages/AdminDashboard.js:75-78 | filtering a newest-first list keeps it newest first |
| AdminDashboard.ComputeStats | frontend/src/pages/AdminDashboard.js:81-86 | `total` is the length of the whole list and each counter is the number of bookings with that status, counted over the whole list |
| AdminDashboard.CountsAddUp | frontend/src/pages/AdminDashboard.js:81-86 | when every status is in the enumeration, pending, completed and cancelled add up to the total |
| AdminDashboard.StatusCountsAddUp | backend/models/Booking.js:42 | when every status is in the enumeration, the three status counts add up to the list length |
| AdminDashboard.WithoutId | frontend/src/pages/AdminDashboard.js:42 | no booking left has the removed identity, and the list does not grow |
| AdminDashboard.WithoutIdIsSubsequence | frontend/src/pages/AdminDashboard.js:42 | removal by identity keeps the remaining bookings in their order |
| AdminDashboard.WithoutIdCounts | frontend/src/pages/AdminDashboard.js:42 | removal by identity drops every booking with that identity and keeps every other one |
| AdminDashboard.Touch | frontend/src/pages/AdminDashboard.js:62-64 | a booking with the identity takes the new status; any other keeps its own; nothing but `status` ever changes |
| AdminDashboard.WithStatus | frontend/src/pages/AdminDashboard.js:61-65 | same length and order; bookings with the identity take the new status, everything else about every booking is unchanged |
| AdminDashboard.IsRejected | frontend/src/pages/AdminDashboard.js:28-30 | the HTTP client rejects a missing reply or a non-2xx status code, so control reaches the `catch` branch |
| AdminDashboard.HandleFetch | frontend/src/pages/AdminDashboard.js:19-34 | the list becomes the server's bookings on an accepted reply with `success`, and otherwise stays as it was |
| AdminDashboard.HandleDelete | frontend/src/pages/AdminDashboard.js:37-48 | unconfirmed or rejected: unchanged; otherwise every booking with that identity leaves and the rest keep their order |
| AdminDashboard.HandleStatusChange | frontend/src/pages/AdminDashboard.js:51-72 | a rejected reply or one without `success` leaves the list unchanged; otherwise the same list with only the status of bookings with that identity rewritten |
| AdminDashboard.OfferedStatusChanges | frontend/src/pages/AdminDashboard.js:262-269 | the only status change offered is "completed", and only on a pending booking |
| Consistency.Listed | backend/routes/bookings.js:35-41 | the bookings the list handler answers with when the database is reachable |
| Consistency.FetchShowsListing | frontend/src/pages/AdminDashboard.js:22-26 | after a fetch the dashboard shows the store's listing, or its old list if the server was unreachable |
| Consistency.WithoutIdCons | frontend/src/pages/AdminDashboard.js:42 | removal by identity distributes over putting one booking in front |
| Consistency.HeadIsNewest | backend/routes/bookings.js:35 | the head of a newest-first list is at least as new as any of its bookings |
| Consistency.WithoutIdInsert | frontend/src/pages/AdminDashboard.js:42 | removal by identity commutes with newest-first insertion |
| Consistency.WithoutIdInsertFront | frontend/src/pages/AdminDashboard.js:42 | removal by identity commutes with insertion at the front |
| Consistency.WithoutIdInsertBehind | frontend/src/pages/AdminDashboard.js:42 | removal by identity commutes with insertion behind the head, given it does for the tail |
| Consistency.InsertBehindHead | backend/routes/bookings.js:35 | a booking older than the head is inserted behind it |
| Consistency.WithoutIdSort | frontend/src/pages/AdminDashboard.js:42 | removing an identity from the listing equals listing the store without it |
| Consistency.WithStatusInsert | frontend/src/pages/AdminDashboard.js:61-65 | rewriting a status commutes with newest-first insertion |
| Consistency.WithStatusSort | frontend/src/pages/AdminDashboard.js:61-65 | rewriting a status in the listing equals listing the rewritten store |
| Consistency.WithoutAbsentId | frontend/src/pages/AdminDashboard.js:42 | removing an identity nobody carries changes nothing |
| Consistency.TailUniqueIds | backend/routes/bookings.js:57 | the tail of a store with unique identities has unique identities, none equal to the head's |
| Consistency.DeleteIsWithoutId | backend/routes/bookings.js:57 | with unique identities, the server's removal of the found record is the dashboard's removal by identity |
| Consistency.SetStatusIsWithStatus | backend/routes/bookings.js:86-90 | with unique identities, the store a successful update leaves is the dashboard's rewrite by identity of the old one |
| Consistency.DeleteKeepsDashboardInSync | frontend/src/pages/AdminDashboard.js:37-48 | whatever the server answers to a delete, the dashboard's list afterwards is the listing of the store the server ends with |
| Consistency.StatusChangeKeepsDashboardInSync | frontend/src/pages/AdminDashboard.js:51-72 | whatever the server answers to a status change, the dashboard's list afterwards is the listing of the store the server ends with |
| Consistency.UiTransitionIsPendingToCompleted | frontend/src/pages/AdminDashboard.js:262-269 | the only transition the dashboard can request is pending to completed, and on a reachable store the server accepts it and answers with the completed record |

## Left out

- Text.Lower: only ASCII `A`–`Z` are lower-cased. JavaScript's `toLowerCase` also maps non-ASCII letters by the Unicode case tables, which are not restated here.
- Bookings.Normalise: the body's fields are strings or absent. JSON `null`, numbers and other types, Mongoose's casting of them, and fields outside the schema are not modelled. A client-supplied `_id` is not modelled either: the identity is always the fresh one.
- Bookings.Normalise: `createdAt` is an integer clock reading. Casting a supplied date string, and the `Date` object itself, are not modelled.
- BookingRoutes.Create: the failure envelope carries a `Fault` value in place of the database library's `error.message` text. The same holds for the other handlers' `catch` branches.
- BookingRoutes.Delete: a malformed identity, which the database library rejects with a cast error (a 500), is not modelled. Identities are opaque strings that either match a record or do not.
- BookingRoutes.SetStatus: a body without `status` is not modelled. The library's treatment of an undefined update field is library behaviour; `status` is always a string here.
- Listing.SortNewestFirst: the order among bookings with equal `createdAt` is one fixed choice. The database promises none, so the contract states only the permutation and the non-increasing order.
- AdminDashboard.HandleFetch: an accepted reply that carries `success` but whose `data` is not a list keeps the old list, where the page would store whatever `data` holds. The list handler never answers that way.
- AdminDashboard.IsRejected: the rule that a missing reply or a non-2xx code rejects is the HTTP client's default, taken as given.
- `backend/server.js`: environment loading, the database connection, CORS and body parsing middleware, the health endpoint and process exit. This is bootstrap and I/O.
- Concurrency between simultaneous requests, and stale React state from interleaved asynchronous updates. Every operation here runs alone.
- Rendering and UI state: the page markup, the loading and error flags, `alert`, `formatDate` in `BookingCard.js`, and the other pages and components. `window.confirm` is the `confirmed` parameter of `HandleDelete`.
- Slot conflicts and double booking: the code has no such check, so none is modelled.
