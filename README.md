# User directory controller, modelled in Dafny

This project models the user controller of a small Express/MongoDB service
(`controller/userController.js`). The MongoDB `User` collection becomes a
sequence of user records. That sequence is a field of the class
`UserController.UserStore`, in the collection's natural (insertion) order.
The model covers these operations:

- **createUser**: `findOne({ email })` and then a refusal for an email that is
  already stored. Otherwise `User.create` appends one record. Its GeoJSON
  `location` is `{ type: "Point", coordinates: [longitude, latitude] }`.
- **changeUserStatus**: the `updateMany` pipeline
  `status := $cond(status == "active", "inactive", "active")`. It is applied
  record by record over the whole collection.
- **getUserListing**: validation of `page` and `limit` (defaults 1 and 10, a
  400 reply for NaN or a value below 1), the `dayMap` table, and one query per
  requested day. Each query selects `$dayOfWeek(register_at) == day + 1`, then
  applies `.skip((page - 1) * limit)`, `.limit(limit)` and `.select("name email")`.
  The response object is filled key by key.

Modules:

- `UserModel` (UserModel.dfy): the user record, the GeoJSON point, the new
  record that creation builds, and the store invariants (unique emails, and
  points consistent with the raw latitude and longitude).
- `Pagination` (Pagination.dfy): the cursor operations skip and limit, pages,
  and the lemmas that pages tile the result without overlap.
- `StatusToggle` (StatusToggle.dfy): the per-record conditional flip and its
  involution, period and counting lemmas.
- `Listing` (Listing.dfy): page and limit validation, day names, the weekday
  filter, buckets, the response fold and what the listing replies.
- `UserController` (UserController.dfy): the store class. Its methods are
  proved against the functions above.

The weekday of `register_at` is stored per record as a `DayOfWeek` in 1..7,
numbered like MongoDB's `$dayOfWeek` (1 = Sunday). The creation clock is the
parameter `today` of `CreateUser`.

Some behaviour one might expect of such a directory is not what the code does.
The model follows the code:

- One might expect day indices outside 0..6 to be rejected with a 400. The
  listing does not reject them. Such a day (and a non-integer from `Number`)
  gets the key `"undefined"` with an empty bucket. `UnnamedDayMatchesNothing`
  proves the bucket is empty: stored days are 1..7, so no record has day d + 1.
- One might expect the toggle to return the number of users it changed. It
  returns no count.
- One might expect creation to reject a latitude outside -90..90 or a
  longitude outside -180..180. It does not check either range.
- A missing `week_number` is not a 400. It makes `split` throw, which gives the
  catch-all 500. It is modelled as `MissingWeekNumber`, checked after page and limit.

## Model

| member | source | states |
|---|---|---|
| `UserModel.MakePoint` | controller/userController.js:47-51 | the GeoJSON point has type "Point" and exactly two coordinates, longitude first and latitude second |
| `UserModel.PointRoundTrip` | controller/userController.js:50 | reading latitude from coordinates[1] and longitude from coordinates[0] gives back the pair that was stored |
| `UserModel.NewUser` | controller/userController.js:48-60 | the created record holds the given name, email, password, address, latitude and longitude, the point [longitude, latitude], status "active" and the clock's weekday |
| `UserModel.ProfileOf` | controller/userController.js:66-74 | the reply reports name, email, address, latitude, longitude, status and registration day of the stored record, and never the password |
| `UserModel.EmailTaken` | controller/userController.js:39-41 | some record has the email exactly when the email is in the set of stored emails |
| `UserModel.AppendKeepsEmailsUnique` | controller/userController.js:39-45 | appending a record whose email is not yet stored keeps all emails distinct |
| `UserController.UserStore.FindByEmail` | controller/userController.js:39 | returns the index of the first record with this email, and returns none exactly when no record has it |
| `UserController.UserStore.CreateUser` | controller/userController.js:36-60 | a stored email gives the "already exists" error and leaves the store unchanged; otherwise exactly the new record is appended and its profile returned; the invariant (unique emails, consistent points, increasing ids) is kept |
| `UserController.UserStore.ChangeUserStatus` | controller/userController.js:83-98 | the new collection is the old one with every record toggled, in the same order and with the same length; the invariant is kept |
| `UserController.UserStore.FindByDay` | controller/userController.js:199-210 | the scan returns the name and email of the matching records after the first `skip`, at most `limit` of them, in store order |
| `UserController.UserStore.GetUserListing` | controller/userController.js:154-218 | the result equals the listing function: the same errors in the same order, and otherwise the response the loop fills |
| `UserController.UserStore.FillResponse` | controller/userController.js:191-211 | the loop that runs one query per requested day and writes each bucket under its day's key yields exactly the response fold `Respond` |
| `StatusToggle.ToggledStatus` | controller/userController.js:89-95 | the new status is always "active" or "inactive", and it is "inactive" exactly when the old one was "active" |
| `StatusToggle.Toggle` | controller/userController.js:86-98 | only the status changes; every other field of the record is kept |
| `StatusToggle.ToggleAll` | controller/userController.js:86-98 | same number of records, and each one is replaced by its toggled self |
| `StatusToggle.ToggleIsTwoValued` | controller/userController.js:92-93 | after one toggle every status is "active" or "inactive" |
| `StatusToggle.ToggleTwiceRestores` | controller/userController.js:89-95 | when every status is "active" or "inactive", toggling twice restores the collection exactly |
| `StatusToggle.ToggleTwiceRestoresRecord` | controller/userController.js:89-95 | record by record: toggling twice restores each record whose status is "active" or "inactive", whatever the other records hold |
| `StatusToggle.ToggleThriceIsOnce` | controller/userController.js:89-95 | for any statuses, three toggles equal one (other values become "active" once and then alternate) |
| `StatusToggle.ToggleCounts` | controller/userController.js:89-95 | after the toggle, the inactive count is the old active count and the active count is the old count of all other records |
| `Pagination.Skip` | controller/userController.js:202 | skip n gives the documents from position n on, in order, and nothing when n exceeds the count |
| `Pagination.Limit` | controller/userController.js:203 | limit n gives a prefix of min(n, count) documents |
| `Pagination.SkipCount` | controller/userController.js:196 | the skip count is zero exactly on page 1 |
| `Pagination.SkipCountStep` | controller/userController.js:196 | the next page starts exactly one page size further on |
| `Pagination.SkipCountMonotone` | controller/userController.js:196 | a later page starts at least one full page after an earlier one |
| `Pagination.Page` | controller/userController.js:196-203 | a page has at most `limit` entries, entry j is document skip + j, and it is empty exactly when the skip passes the end |
| `Pagination.PageIsSlice` | controller/userController.js:196-203 | a page is the slice from its skip count to one page further, clipped at the end |
| `Pagination.FirstPagesArePrefix` | controller/userController.js:196-203 | pages 1..k concatenated are exactly the documents before page k + 1, so pages have no gaps and no overlap |
| `Pagination.CoveringPage` | controller/userController.js:196 | every index lies in the window of some page |
| `Pagination.DocumentOnPage` | controller/userController.js:196-203 | every document lies on some page, at the position its index minus the page's skip count gives |
| `Pagination.OnOnePage` | controller/userController.js:196-203 | no document lies in the windows of two different pages |
| `Pagination.WindowAppend` | controller/userController.js:202-203 | one more matching document joins a skip/limit result exactly when the skip is used up and the limit not reached |
| `Listing.ValidatePaging` | controller/userController.js:157-174 | it succeeds exactly when page and limit are each absent or a positive integer; a bad page is reported before a bad limit; absent values become 1 and 10 |
| `Listing.DayKey` | controller/userController.js:180-188 | days 0..6 get their names from the table and every other requested day gets the key "undefined" |
| `Listing.DayIndex` | controller/userController.js:180-188 | the inverse table: a name maps to the index with that name, and a non-name maps to none |
| `Listing.DayKeyRoundTrip` | controller/userController.js:180-195 | a named day's key maps back to its index, and the key of any other requested day is no day name |
| `Listing.DayKeyShared` | controller/userController.js:195-207 | two requested days write the same key exactly when they are the same named day, or both have no name |
| `Listing.OnDay` | controller/userController.js:200 | a record matches a requested day exactly when the day is named (0..6) and is one below the record's stored day of week |
| `Listing.Matching` | controller/userController.js:199-201 | the selected records are exactly the stored records whose day of week is day + 1 |
| `Listing.UnnamedDayMatchesNothing` | controller/userController.js:200 | a day outside 0..6, or a non-integer, selects no record, because stored days are 1..7 |
| `Listing.MatchingAppend` | controller/userController.js:199-201 | the filter of a longer store is the filter of the shorter one followed by the new record when it is on the day |
| `Listing.Project` | controller/userController.js:204-210 | each entry holds only the name and email of the record at the same position |
| `Listing.ProjectAppend` | controller/userController.js:207-210 | projection proceeds record by record |
| `Listing.Bucket` | controller/userController.js:194-210 | a bucket has exactly min(limit, matches - skip) entries, or none when the skip passes the matches; entry j is the name and email of matching record skip + j; the bucket of an unnamed day is empty |
| `Listing.BucketIsQuery` | controller/userController.js:196-204 | a bucket is exactly the day's query: skip the page's skip count, take `limit`, keep name and email |
| `Listing.Respond` | controller/userController.js:191-211 | after the loop, the last requested day's key holds that day's bucket |
| `Listing.RespondAppend` | controller/userController.js:207 | handling one more day writes its bucket under its key and changes nothing else |
| `Listing.SharedKeySameBucket` | controller/userController.js:195-207 | days that write the same key write the same bucket, so a repeated key is rewritten with an identical value |
| `Listing.RespondBuckets` | controller/userController.js:191-211 | the response's keys are exactly the keys of the requested days, and under each requested day's key stands that day's own bucket |
| `Listing.GetListing` | controller/userController.js:154-218 | the listing succeeds exactly when page and limit pass and `week_number` is present; otherwise it fails with the bad page first, then the bad limit, then the missing `week_number` |
| `Listing.ListingReply` | controller/userController.js:157-218 | bad page, then bad limit, then missing week_number are refused in that order; otherwise one key per distinct day key (every day outside 0..6 and every non-integer shares `"undefined"`), each bucket of at most `limit` entries and the same as when that day is requested alone |
| `Listing.WeekdayPartition` | controller/userController.js:199-201 | the unpaged matches of days 0..6 together count every stored record exactly once |

## Left out

- `getDistance` (controller/userController.js:109-151) is not modelled. It relies on MongoDB's `$geoNear` spherical geometry, floating-point unit conversion and `toFixed(2)` formatting. The `haversine` import is unused.
- `protect` and `generateToken` (controller/userController.js:7-33) are not modelled. They are JSON Web Token signing and verification in a foreign library. The `token` field of the creation reply is therefore missing from `Profile`.
- Password hashing is not modelled. `bcryptjs` is imported but no hashing is visible in the controller. The password is stored as given.
- `model/userModel.js` is not part of this model. The schema's default status is taken to be "active". Its `register_at` default is the `today` parameter.
- The calendar step from `register_at` to its weekday (time zone, `$dayOfWeek`) is not modelled. Each record stores the day number instead.
- `parseInt`, `parseFloat` and `Number` are not modelled as string parsers. A page or limit arrives already parsed, as absent, an integer or NaN. A requested day arrives as an integer or a non-integer. Latitude and longitude arrive as reals, so the raw fields and the point always agree.
- The split of `week_number` on commas is not modelled. The days arrive as a sequence.
- `Pagination.Limit`: MongoDB's `.limit(0)` means "no limit", but the listing never passes 0, so `Limit` takes only positive sizes.
- `Pagination.SkipCount`: the product `(page - 1) * limit` is computed in unbounded integers. JavaScript number precision and MongoDB's 64-bit skip bound are not modelled.
- The HTTP reply envelope and status codes are not modelled, and neither are the 500 catch-all handlers for store failures or async sequencing. A failing `User.create` and a lost connection are among these.
- Concurrency is not modelled. Every operation is one uninterrupted request, and no other request interleaves with it. The controller awaits several store calls in a row, and other requests could run in between:
  - `UserController.UserStore.CreateUser`: `findOne` (controller/userController.js:39) and `User.create` (:52) are separate calls. Two concurrent creations of one email could both pass the check, unless the schema (not part of this model) has a unique index. `EmailsUnique` is therefore guaranteed only for sequential requests.
  - `Listing.SharedKeySameBucket`: the listing awaits one query per day (:194-204). A repeated day rewrites its key with an identical bucket only when no write lands between those queries.
  - `UserController.UserStore.ChangeUserStatus`: the toggle is one sequential pass. Atomicity and concurrent toggles are not modelled.
- The response object's key order is not modelled. JavaScript keeps an object's keys in first-write order, and `res.json` writes them in that order (controller/userController.js:191-217). `Response` is an unordered map.
- The unused `req.user` read in `changeUserStatus` is not modelled.
- `index.js` (server, error handler, database connection, signals) and `route/userRoutes.js` (route wiring) are not modelled.
- The store's natural order is taken to be insertion order. MongoDB promises no order for an unsorted `find`.
