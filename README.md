# Hotel booking platform: a verified model of its domain logic

This project models the server-side domain logic of a hotel booking platform (an
Express/Mongoose application), together with the client-side room inventory and booking
filter of its vendor dashboard page.

The store holds four collections: users, hotels, rooms and bookings. Each is a sequence of
records that carry their own `id`. Dafny `Store.Store` is the store class. It has one method
per HTTP handler that changes state:

- booking and cancellation;
- the wishlist;
- hotel create, update and delete;
- the admin toggles, role and vendor-status updates, and user deletion.

Each method has an imperative body (a lookup loop, the early-return checks, the writes), and
its `ensures` ties the new state to a pure transition function of the handler's controller
module. Those transition functions answer like the handler does: a `Result` with the HTTP
errors 400 (`BadRequest`), 401 (`Unauthorized`) and 404 (`NotFound`), or `Invalid` when a
schema validator refuses a `create` or a `save`. The lemmas about those functions state what
the handlers promise.

The read-only handlers are pure functions over the collections: the booking listings, the
vendor statistics, the admin dashboard, the vendor report and the booking search.

The store invariant `Store.Consistent` says four things:

- ids are unique in every collection;
- every user passes the user schema's validators;
- every wishlist is duplicate-free;
- no two users share an email.

Every store method preserves it. The route role checks (`authorize('customer')`, `'vendor'`,
`'admin'`) are method preconditions.

The modules follow the source:

- `Common`: ids, results, trimming, filter/count/sum, the stable newest-first sort, keyed
  lookup.
- `Models`: the four schemas.
- `Ledger`: `bookingController.js`.
- `Catalogue`: `vendorController.js`.
- `Admin`: `adminController.js`.
- `Wishlist`: `wishlistController.js`.
- `Store`: the store class.
- `VendorDashboard`: `VendorDashboard.jsx`, with a `Dashboard` class for the page state
  `selectedHotelId`, `roomsByHotel` and `editingRoomId`.

Values are modelled as follows:

- Dates are integer epoch milliseconds.
- Numbers arriving at the page are already-parsed integers.
- A missing request field is `None`.
- A user loaded without its password path has `password == None`.

## Model

| member | source | states |
|---|---|---|
| Common.Trim | backend/models/Hotel.js:12 | the result has no leading or trailing whitespace, is no longer than the input, and a string that is already trimmed is left unchanged |
| Common.TrimEdges | backend/models/Hotel.js:12 | whitespace, then a trimmed middle, then whitespace trims to exactly that middle |
| Common.TrimSplits | backend/models/Hotel.js:12 | every string is its leading whitespace, its trimmed form and its trailing whitespace, in that order; with `TrimEdges` this makes the trimmed form unique |
| Common.Utf16Length | backend/models/Hotel.js:13 | JavaScript's `length`, in UTF-16 code units: between the number of code points and twice that, and 0 only for the empty string |
| Common.Utf16LengthBmp | backend/models/Hotel.js:13 | the UTF-16 length equals the number of code points exactly when no code point lies above U+FFFF |
| Common.Utf16LengthConcat | backend/models/Hotel.js:22 | the UTF-16 lengths of two strings add up |
| Common.TopNewest | backend/controllers/adminController.js:20 | `sort('-createdAt').limit(n)`: `min(n, |s|)` elements of `s`, newest first, and every element left out is no newer than any element kept |
| Common.SumPermutation | backend/controllers/vendorController.js:27 | a sum of prices does not depend on the order of the bookings |
| Common.IndexOfFirst | backend/controllers/bookingController.js:84 | `findById` finds the first record with the id |
| Models.ParseStatus | backend/models/Booking.js:31-35 | the booking status enum accepts exactly `confirmed`, `cancelled` and `completed`, and maps each back to its name |
| Models.NewBooking | backend/models/Booking.js:3-40 | creation succeeds exactly when user, room, hotel, both dates and the price are given and the status (if given) is in the enum; status defaults to confirmed and `createdAt` to now |
| Models.NewRoom | backend/models/Room.js:3-30 | creation succeeds exactly when hotel, a non-empty room type and the price are given; `isAvailable` defaults to true and `count` to 1 |
| Models.NewHotel | backend/models/Hotel.js:3-40 | creation succeeds exactly when vendor, name, location and description are given, the trimmed name is non-empty and at most 50 UTF-16 code units, the location is non-empty, and the description is non-empty and at most 500 units; the stored name is trimmed, the lists default to empty and `isActive` to true |
| Models.ParseRole | backend/models/User.js:25-29 | the role enum accepts exactly `customer`, `vendor` and `admin` |
| Models.ParseVendorStatus | backend/models/User.js:40-44 | the vendor-status enum accepts exactly `pending`, `approved`, `rejected` and `none` |
| Models.NewUser | backend/models/User.js:4-49 | creation succeeds exactly when name, a non-blank email and a password of at least 6 UTF-16 code units are given and the enums accept; the name and password are stored as given and the email trimmed; role defaults to customer, vendor status to none, `isBlocked` to false and the wishlist to empty |
| Models.WithoutPassword | backend/models/User.js:19-24 | the `select: false` projection: no password, every other field kept |
| Models.MatchPassword | backend/models/User.js:62-68 | false when the password path was not loaded; otherwise the verdict of the hash comparison |
| Ledger.Nights | backend/controllers/bookingController.js:25-27 | the night count `n` is the ceiling of the stay in days (`DAY_MS*(n-1) < out-in <= DAY_MS*n`), and `n > 0` exactly when check-in is before check-out |
| Ledger.Reserve | backend/controllers/bookingController.js:29-46 | 400 exactly when check-out is not after check-in; otherwise a confirmed booking for the caller, the room and the room's hotel, priced at the nightly price times the nights |
| Ledger.BookRoom | backend/controllers/bookingController.js:9-49 | 400 with nothing stored when a field is missing; 404 with nothing stored when the room is absent; 400 with nothing stored when check-out is not after check-in; success exactly when all fields are given, the room exists and the stay is positive, and then exactly one booking with a fresh id is appended |
| Ledger.BookingIgnoresLedger | backend/controllers/bookingController.js:36-46 | no availability check: the verdict and the booking (up to its id) are the same whatever bookings already exist |
| Ledger.OwnedHotelIds | backend/controllers/bookingController.js:68-69 | exactly the ids of the hotels the vendor owns |
| Ledger.Listing | backend/controllers/bookingController.js:55-58 | the selected bookings, each as often as in the store, nothing else, newest first |
| Ledger.CustomerBookings | backend/controllers/bookingController.js:54-61 | exactly the caller's bookings, each as often as stored, newest first |
| Ledger.VendorBookings | backend/controllers/bookingController.js:66-78 | exactly the bookings at hotels the caller owns, each as often as stored, newest first |
| Ledger.Cancel | backend/controllers/bookingController.js:83-101 | 404 when absent and 401 when the caller did not make it, both with nothing changed; success exactly when the booking exists and the caller made it; only that booking can change, and only to itself with status cancelled |
| Ledger.CancelIdempotent | backend/controllers/bookingController.js:97-98 | a second cancel answers the same and changes nothing |
| Ledger.CancelTouchesOnlyStatus | backend/controllers/bookingController.js:97-98 | every other booking and every other field is unchanged, whatever the prior status |
| Catalogue.WithRooms | backend/controllers/vendorController.js:38-42 | each hotel with exactly the rooms of that hotel, in their stored order and multiplicity (the `filter` by hotel id), and a `roomCount` equal to their number |
| Catalogue.GetVendorStats | backend/controllers/vendorController.js:9-46 | 401 exactly without a caller; otherwise hotel and room counts of the caller's hotels, the caller's bookings newest first, the confirmed and the cancelled count among them (together at most the total), `recentBookings` the first `min(5, n)` of them, and the caller's hotels in store order, each with exactly its rooms in store order |
| Catalogue.WithOwnRooms | backend/controllers/vendorController.js:16-42 | narrowing the rooms to those of a set of hotels first leaves the room lists of those hotels unchanged |
| Catalogue.VendorHotels | backend/controllers/vendorController.js:14-42 | the vendor's hotel list is `WithRooms` of the vendor's hotels over all rooms, every entry the vendor's with exactly that hotel's rooms |
| Catalogue.VendorEarnings | backend/controllers/vendorController.js:25-27 | the earnings are the sum of `totalPrice` over the confirmed bookings at the vendor's hotels |
| Catalogue.RoomCountsAddUp | backend/controllers/vendorController.js:38-42 | for distinct hotels, the per-hotel room counts add up to the number of rooms in all of them |
| Catalogue.StatsRoomCountsSum | backend/controllers/vendorController.js:31-42 | the per-hotel `roomCount`s of the statistics add up to `totalRooms` |
| Catalogue.CreateHotel | backend/controllers/vendorController.js:51-69 | 400 unless name, location and description are given; then the schema decides (trimmed name non-empty and at most 50 UTF-16 code units, description at most 500); on success one hotel is appended with a fresh id, owned by the caller, with the given images as `imageUrls`, active |
| Catalogue.UpdateHotel | backend/controllers/vendorController.js:74-99 | 404 when absent and 401 when not the caller's, both with nothing changed; otherwise the body is merged and stored without validation; with `images` the document is then saved, which validates it, and a refused save leaves the merged hotel stored; other hotels never change |
| Catalogue.UpdateSkipsValidation | backend/controllers/vendorController.js:87-91 | an update without images stores a 51-character name |
| Catalogue.DeleteHotel | backend/controllers/vendorController.js:104-121 | 404 when absent and 401 when not the caller's, both with nothing changed; success exactly when the hotel exists and the caller owns it, and then exactly that hotel and every room of that hotel are removed, every other room kept as often as stored |
| Admin.RecentUsers | backend/controllers/adminController.js:21 | the five newest users, newest first, without their passwords |
| Admin.GetAdminDashboard | backend/controllers/adminController.js:10-35 | the collection sizes, the vendor count (at most the user count), the revenue over confirmed bookings, the five newest hotels (`TopNewest`), and the users of `RecentUsers` |
| Admin.RevenuePartition | backend/controllers/adminController.js:17-18 | all prices = revenue + the cancelled sum + the completed sum, so only confirmed bookings count |
| Admin.RevenueAfterCancel | backend/controllers/adminController.js:17-18 | a successful cancellation takes the booking's price off the revenue when it was confirmed, and leaves it otherwise |
| Admin.SaveUser | backend/controllers/adminController.js:73 | `save()` of a user loaded without its password: validators run on the loaded paths; on success the record is stored and answered without its password; on failure nothing is stored |
| Admin.ToggleUserBlock | backend/controllers/adminController.js:60-75 | 404 when absent, 400 for an admin, both with nothing changed; for any other stored user `isBlocked` is negated and the user is answered without its password |
| Admin.ToggleUserBlockTwice | backend/controllers/adminController.js:72 | toggling twice gives back the users exactly |
| Admin.UpdateUserRole | backend/controllers/adminController.js:80-96 | 404 when absent, 400 for an admin, `Invalid` for a value outside the enum, each with nothing changed; for any other stored user the role is set, `admin` included, and the user is answered without its password |
| Admin.DeleteUser | backend/controllers/adminController.js:172-186 | 404 when absent, 400 for an admin; success exactly otherwise, removing exactly that user |
| Admin.PromotionIsFinal | backend/controllers/adminController.js:88-94 | after a promotion to admin, block, role change and delete of that user all answer 400 and change nothing |
| Admin.UpdateVendorStatus | backend/controllers/adminController.js:127-143 | 400 for a status outside approved/rejected/pending before any lookup; 404 when absent or not a vendor; otherwise the status is set and never becomes `none` |
| Admin.UpdateVendorStatusIdempotent | backend/controllers/adminController.js:140-141 | setting the same status again answers the same and changes nothing |
| Admin.ToggleHotelStatus | backend/controllers/adminController.js:156-167 | 404 when absent; otherwise `isActive` is negated, and the save's validators may refuse a hotel that an unvalidated update left invalid |
| Admin.ToggleHotelStatusTwice | backend/controllers/adminController.js:163-164 | toggling twice gives back the hotels exactly |
| Admin.RowOf | backend/controllers/adminController.js:114-118 | a vendor row carries the vendor without password, with the same id, role and creation time |
| Admin.VendorsNewest | backend/controllers/adminController.js:102 | a permutation of the store's vendors, newest first |
| Admin.AdminVendors | backend/controllers/adminController.js:101-122 | one row per vendor, newest first, no password, `hotelCount` = the vendor's hotels, `bookingCount` = the bookings at those hotels; the rows' vendors are exactly `VendorsNewest` without passwords |
| Admin.VendorRowsMatchStats | backend/controllers/adminController.js:105-118 | a row's counts equal `totalHotels` and `totalBookings` of that vendor's own statistics |
| Admin.AdminBookings | backend/controllers/adminController.js:191-213 | a booking is listed exactly when it matches the status (if given) and lies in the inclusive creation range (if both ends are given), as often as stored, newest first |
| Admin.AdminBookingsUnfiltered | backend/controllers/adminController.js:195-204 | without a status and a complete range every booking is listed |
| Admin.HalfRangeIgnored | backend/controllers/adminController.js:199-204 | a single date bound has no effect |
| Wishlist.Add | backend/controllers/wishlistController.js:7-20 | 400 exactly when the hotel is already listed; otherwise the hotel is appended at the end |
| Wishlist.Remove | backend/controllers/wishlistController.js:25-34 | no occurrence of the hotel remains, and every other id occurs as often as before |
| Wishlist.RemoveKeepsOrder | backend/controllers/wishlistController.js:28-30 | removal from a concatenation removes from each part, so the rest keeps its order |
| Wishlist.RemoveAbsent | backend/controllers/wishlistController.js:28-30 | removing an absent hotel changes nothing |
| Wishlist.AddThenRemove | backend/controllers/wishlistController.js:7-34 | add followed by remove gives back the list |
| Wishlist.AddKeepsDistinct | backend/controllers/wishlistController.js:11-16 | adding keeps the list duplicate-free |
| Wishlist.RemoveKeepsDistinct | backend/controllers/wishlistController.js:28-30 | removing keeps the list duplicate-free |
| Wishlist.FilterKeepsDistinct | backend/controllers/wishlistController.js:28-30 | filtering a duplicate-free list keeps it duplicate-free |
| Store.Find | backend/controllers/bookingController.js:84 | the lookup loop finds exactly the index `findById` denotes |
| Store.ConsistentReplaceUser | backend/models/User.js:9-24 | replacing a user by a valid record with the same id and email keeps the store invariant |
| Store.ConsistentRemoveUser | backend/models/User.js:9-18 | removing a user keeps the store invariant |
| Store.Store.BookRoom | backend/controllers/bookingController.js:9-49 | customer only; the new bookings and the answer are those of `Ledger.BookRoom`, nothing else changes, the invariant holds |
| Store.Store.CancelBooking | backend/controllers/bookingController.js:83-101 | customer only; bookings and answer as `Ledger.Cancel` |
| Store.Store.AddToWishlist | backend/controllers/wishlistController.js:7-20 | customer only; the caller's wishlist becomes `Wishlist.Add` of it when that succeeds, and is kept otherwise |
| Store.Store.RemoveFromWishlist | backend/controllers/wishlistController.js:25-34 | customer only; the caller's wishlist becomes `Wishlist.Remove` of it |
| Store.Store.CreateHotel | backend/controllers/vendorController.js:51-69 | vendor only; hotels and answer as `Catalogue.CreateHotel` |
| Store.Store.UpdateHotel | backend/controllers/vendorController.js:74-99 | vendor only; hotels and answer as `Catalogue.UpdateHotel` |
| Store.Store.DeleteHotel | backend/controllers/vendorController.js:104-121 | vendor only; hotels, rooms and answer as `Catalogue.DeleteHotel`; bookings and users unchanged |
| Store.Store.ToggleUserBlock | backend/controllers/adminController.js:60-75 | admin only; users and answer as `Admin.ToggleUserBlock` |
| Store.Store.UpdateUserRole | backend/controllers/adminController.js:80-96 | admin only; users and answer as `Admin.UpdateUserRole` |
| Store.Store.UpdateVendorStatus | backend/controllers/adminController.js:127-143 | admin only; users and answer as `Admin.UpdateVendorStatus` |
| Store.Store.ToggleHotelStatus | backend/controllers/adminController.js:156-167 | admin only; hotels and answer as `Admin.ToggleHotelStatus` |
| Store.Store.DeleteUser | backend/controllers/adminController.js:172-186 | admin only; users and answer as `Admin.DeleteUser`; hotels and bookings unchanged |
| VendorDashboard.BookedBounds | frontend/src/pages/VendorDashboard.jsx:903 | for a room within bounds, booked lies in [0, quantity] and booked + available = quantity |
| VendorDashboard.Normalise | frontend/src/pages/VendorDashboard.jsx:107-118 | the room is always within bounds; the quantity defaults to 0 and the availability to the quantity; for a positive quantity an availability in [0, quantity] is kept, one above it becomes the quantity and a negative one 0; for quantity 0 only a negative one is raised to 0, and a negative quantity gives 0; a stored id is kept and a missing one generated from the hotel and position; the type is never empty and the capacity never 0 |
| VendorDashboard.HotelViewRooms | frontend/src/pages/VendorDashboard.jsx:107 | a hotel's rooms normalised in order, a missing list giving none |
| VendorDashboard.CollectKeys | frontend/src/pages/VendorDashboard.jsx:106-122 | the reducer's keys are the starting keys and the hotel ids |
| VendorDashboard.CollectUntouched | frontend/src/pages/VendorDashboard.jsx:120 | a key no hotel has keeps its value |
| VendorDashboard.CollectLast | frontend/src/pages/VendorDashboard.jsx:120 | the last hotel with an id decides that id's rooms |
| VendorDashboard.CollectInBounds | frontend/src/pages/VendorDashboard.jsx:108-110 | the reducer keeps every room within bounds |
| VendorDashboard.NormaliseAll | frontend/src/pages/VendorDashboard.jsx:106-122 | keyed by exactly the hotel ids, never by the empty key, every room within bounds |
| VendorDashboard.NormaliseAllLast | frontend/src/pages/VendorDashboard.jsx:120 | each id maps to the normalised rooms of the last hotel with that id |
| VendorDashboard.Clamped | frontend/src/pages/VendorDashboard.jsx:328-330 | the stored availability is never negative, at most the quantity, the quantity for an empty input, the input when it is in range, the quantity when the input is above it, and 0 when the input is negative |
| VendorDashboard.EditAll | frontend/src/pages/VendorDashboard.jsx:343-354 | the rooms with the edited id take the form's values; the others are kept |
| VendorDashboard.SubmitUpdate | frontend/src/pages/VendorDashboard.jsx:337-371 | only the selected hotel's list changes: an edit rewrites the rooms with that id, an add appends one room; a valid form keeps every room within bounds |
| VendorDashboard.DeleteUpdate | frontend/src/pages/VendorDashboard.jsx:390-393 | only the selected hotel's list changes: it becomes its own filter by the id, in order, every other room kept as often as before |
| VendorDashboard.AvailabilityUpdate | frontend/src/pages/VendorDashboard.jsx:410-415 | only the `available` of the rooms with that id in the selected hotel changes |
| VendorDashboard.AvailabilityKeepsBounds | frontend/src/pages/VendorDashboard.jsx:404-415 | a value the check accepts keeps every room within bounds when room ids are unique |
| VendorDashboard.EditSubmitUnchanged | frontend/src/pages/VendorDashboard.jsx:376-385 | loading a valid room into the form and submitting it unchanged leaves the list as it was |
| VendorDashboard.FormOf | frontend/src/pages/VendorDashboard.jsx:376-385 | the form loaded from a room gives that room back except for a re-clamped availability |
| VendorDashboard.Dashboard.SyncFromStats | frontend/src/pages/VendorDashboard.jsx:97-125 | with hotels, the first is selected if none is, and the rooms are built once while the map is empty; the bounds are kept |
| VendorDashboard.Dashboard.SelectHotel | frontend/src/pages/VendorDashboard.jsx:793-796 | a new selection clears the room form |
| VendorDashboard.Dashboard.SubmitRoom | frontend/src/pages/VendorDashboard.jsx:321-374 | nothing changes without a selected hotel or with a failed check; otherwise the rooms become `SubmitUpdate` and the form is reset |
| VendorDashboard.Dashboard.EditRoom | frontend/src/pages/VendorDashboard.jsx:376-385 | the form holds the room and the room is the one being edited |
| VendorDashboard.Dashboard.DeleteRoom | frontend/src/pages/VendorDashboard.jsx:387-398 | a declined confirmation changes nothing; otherwise the rooms become `DeleteUpdate`, and an edit of that room is abandoned |
| VendorDashboard.Dashboard.UpdateAvailability | frontend/src/pages/VendorDashboard.jsx:400-416 | a cancelled prompt or a value outside [0, quantity] changes nothing; otherwise the rooms become `AvailabilityUpdate` |
| VendorDashboard.Split | frontend/src/pages/VendorDashboard.jsx:249 | at least one piece, none containing the separator |
| VendorDashboard.JoinSplit | frontend/src/pages/VendorDashboard.jsx:249 | joining the pieces with the separator gives back the string |
| VendorDashboard.SplitList | frontend/src/pages/VendorDashboard.jsx:249-250 | every entry is non-empty, trimmed and comma-free |
| VendorDashboard.SplitJoined | frontend/src/pages/VendorDashboard.jsx:282 | splitting a `", "` join of comma-free entries gives the entries, all but the first behind one space |
| VendorDashboard.SplitListJoin | frontend/src/pages/VendorDashboard.jsx:282 | a list the form shows as its `join(', ')` splits back into the same list |
| VendorDashboard.PayloadAsWritten | frontend/src/pages/VendorDashboard.jsx:244-251 | a payload exists exactly when both comma fields are present; the spread copies `isActive` |
| VendorDashboard.FirstSubmitFails | frontend/src/pages/VendorDashboard.jsx:44 | a hotel typed into the initial form, with the comma fields left alone, produces no payload |
| VendorDashboard.SplitListEmpty | frontend/src/pages/VendorDashboard.jsx:272 | the empty comma field of the reset form gives the empty list |
| VendorDashboard.Payload | frontend/src/pages/VendorDashboard.jsx:244-251 | a payload always exists, with empty lists for missing fields, equal to the as-written payload whenever that exists, with non-empty trimmed entries |
| VendorDashboard.Lower | frontend/src/pages/VendorDashboard.jsx:754 | same length, each ASCII capital lowered and every other character kept |
| VendorDashboard.LowerIdempotent | frontend/src/pages/VendorDashboard.jsx:754 | lowering an already lowered status changes nothing |
| VendorDashboard.VendorBookingsView | frontend/src/pages/VendorDashboard.jsx:738-751 | a booking is kept exactly when the vendor has no hotels, its hotel is not an id string, or its hotel is the vendor's, and then as often as listed |
| VendorDashboard.VendorBookingsViewConcat | frontend/src/pages/VendorDashboard.jsx:738-751 | the view keeps the list's order: the view of two lists joined is the two views joined |
| VendorDashboard.FilteredBookings | frontend/src/pages/VendorDashboard.jsx:753-769 | a booking is kept exactly when the status option is `all` or its lowercased status, and each set date bound holds for a present check-in date, and then as often as listed |
| VendorDashboard.FilteredBookingsConcat | frontend/src/pages/VendorDashboard.jsx:753-769 | the filter keeps the list's order: filtering two lists joined is joining their filters |
| VendorDashboard.DefaultFiltersKeepAll | frontend/src/pages/VendorDashboard.jsx:57 | the initial filters keep every booking |
| VendorDashboard.Distinct | frontend/src/pages/VendorDashboard.jsx:771-773 | the distinct elements, nothing else, each once, in the order of their first occurrence (a `Set` iterates in insertion order) |
| VendorDashboard.Statuses | frontend/src/pages/VendorDashboard.jsx:772 | each booking's lowercased status, in order |
| VendorDashboard.BookingStatuses | frontend/src/pages/VendorDashboard.jsx:771-773 | exactly the non-empty lowercased statuses of the bookings, each once, in the order in which the bookings first show them |
| Common.FilterFirstIndex | frontend/src/pages/VendorDashboard.jsx:771-773 | a filter keeps how the first occurrences of two kept elements are ordered, so filtering before `new Set` keeps the first-seen order |
| VendorDashboard.StatusOptionsMatch | frontend/src/pages/VendorDashboard.jsx:771-773 | every status the selector offers keeps at least one booking |

## Findings

| source | as written | input that shows it | evidently intended | confidence | as-written member | corrected member |
|---|---|---|---|---|---|---|
| frontend/src/pages/VendorDashboard.jsx:44 | the initial hotel form has no `amenities` or `images` key, and the submit handler calls `.split` on both | a vendor with no hotels yet opens the form from the empty-state button (line 722), which only shows the form, and submits without touching the amenities and images inputs: `undefined.split` throws and the page reports "Failed to save hotel"; the header button (line 549) calls `resetForm` first and so avoids it | a missing comma field reads as the empty string, as it does after `resetForm` (line 272), and gives an empty list | not executed; high, by reading the code | VendorDashboard.PayloadAsWritten, VendorDashboard.FirstSubmitFails | VendorDashboard.Payload |

## Left out

- The HTTP and framework layer is not modelled: routing, `asyncHandler`, response writing, and the `protect` middleware. `protect` is not part of this model. Its blocked-user handling, if any, is therefore not captured, and every caller is taken to be authenticated.
- `Invalid` stands for a Mongoose validation error. The error middleware that picks its status code is not part of this model.
- `populate` joins are left out. The listings return the stored booking records.
- `select('-password')` and the default exclusion of the password are modelled as `WithoutPassword`.
- Ids are one equality type (`nat`), and fresh ids are one more than the largest id. ObjectId representation, `toString()` comparisons and cast errors on malformed ids are not modelled.
- The email format regex of the user schema is not modelled, because regular expressions are outside the model. Email uniqueness is part of the store invariant, not a check on save.
- bcrypt hashing in the pre-save hook is a foreign call and is left out. The comparison is a parameter of `MatchPassword`.
- `getAdminUsers` is not modelled, because its search feeds a user-supplied regular expression to the database.
- `getAdminHotels` is not modelled: it is a single sort of one collection, already covered by `TopNewest`'s sort.
- The `Promise.all` of `getAdminVendors` is modelled as a sequential map.
- Date parsing and the `NaN` nights of invalid dates are not modelled. Neither are the local-time `T23:59:59` end-of-day bound of the page filter and `Number()` coercion. Dates and numbers arrive parsed as integers, and the filter's bounds are given as integers.
- Admin.UpdateUserRole: a request without a `role` value is not modelled. The role arrives as a string, so the unset-path case of `user.role = undefined` is not covered.
- Wishlist.Add: a request without a `hotelId` is not modelled. The hotel arrives as an id, so the case where `push(undefined)` stores an empty entry is not covered; the wishlist holds ids only.
- Catalogue.GetVendorStats: the 401 branch is reachable only for an absent caller, which the route middleware already rules out. It is modelled with an optional caller.
- The store methods for the read-only handlers are not written, because the queries are pure functions of the collections. For the same reason, the role gates of those routes are not modelled for them.
- VendorDashboard.Lower: states only that ASCII letters are lowered, because `toLowerCase` on the rest of Unicode is not modelled.
- Alternative field names the page tries (`room.totalRooms`, `booking.checkIn`, and so on) are modelled as one optional field each. For the `??` chains (room quantity and availability) that field is the first one set. For the `||` chains (room id, type and capacity, the booking's hotel id and check-in date) it is the first truthy one, so `type: ""` with `roomType: "Suite"` reads as `Suite`.
- The page's `alert`, `prompt` and `confirm` dialogs are inputs (`confirmed`, `input: Option<int>`), and `Date.now()` is a parameter.
- Rendering, `localStorage` persistence, invoice download and the other pages are not modelled.
- Field-name mismatches between the page and the server (`images` vs `imageUrls` when editing, for example) are not modelled.
- One-off database scripts and the `Payment`, `StatusLog` and `Vendor` schemas are not modelled, because nothing shown reads them.
- `dashboardController.js` and `publicController.js` are not modelled: they only return fixed messages or run single equality queries.
