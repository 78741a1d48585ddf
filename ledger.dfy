/** The booking ledger (backend/controllers/bookingController.js): booking
    creation with its night arithmetic, the customer and vendor booking
    listings, and cancellation. Each handler is a function from the
    collections it reads to its response and the collection it writes. */
module Ledger {
  import opened Common
  import opened Models

  /** Milliseconds in a day: 1000 * 60 * 60 * 24. */
  const DAY_MS := 86_400_000

  /** `Math.ceil((checkOut - checkIn) / DAY_MS)` on integer milliseconds. */
  function Nights(checkIn: int, checkOut: int): (n: int)
    ensures DAY_MS * (n - 1) < checkOut - checkIn <= DAY_MS * n
    ensures n > 0 <==> checkIn < checkOut
  {
    -((checkIn - checkOut) / DAY_MS)
  }

  /** What remains of booking creation once the room is found: the night
      count is checked and the booking is created as confirmed, priced at
      the room's nightly price times the number of nights. */
  function Reserve(room: Room, caller: Id, roomId: Id, checkIn: int, checkOut: int,
                   id: Id, now: int): (r: Result<Booking>)
    ensures r.Err? <==> checkOut <= checkIn
    ensures r.Err? ==> r.error == BadRequest
    ensures r.Ok? ==> && r.value.id == id
                      && r.value.userId == caller
                      && r.value.roomId == roomId
                      && r.value.hotelId == room.hotelId
                      && r.value.checkInDate == checkIn
                      && r.value.checkOutDate == checkOut
                      && r.value.totalPrice == room.pricePerNight * Nights(checkIn, checkOut)
                      && r.value.status == Confirmed
                      && r.value.createdAt == now
  {
    var nights := Nights(checkIn, checkOut);
    if nights <= 0 then Err(BadRequest)
    else
      NewBooking(id, BookingFields(Some(caller), Some(roomId), Some(room.hotelId), Some(checkIn),
                                   Some(checkOut), Some(room.pricePerNight * nights),
                                   Some("confirmed"), None), now)
  }

  /** `bookRoom`: 400 when a field is missing, 404 when the room does not
      exist, 400 when the stay is not at least one night; otherwise the new
      booking is appended. The existing bookings are consulted only for a
      fresh id: no availability or overlap check is made. */
  function BookRoom(rooms: seq<Room>, bookings: seq<Booking>, caller: Id, roomId: Option<Id>,
                    checkIn: Option<int>, checkOut: Option<int>, now: int)
    : (out: (Result<Booking>, seq<Booking>))
    ensures roomId.None? || checkIn.None? || checkOut.None? ==> out == (Err(BadRequest), bookings)
    ensures roomId.Some? && checkIn.Some? && checkOut.Some? && IndexOf(rooms, RoomKey, roomId.value).None?
            ==> out == (Err(NotFound), bookings)
    ensures roomId.Some? && checkIn.Some? && checkOut.Some? && IndexOf(rooms, RoomKey, roomId.value).Some?
            && checkOut.value <= checkIn.value
            ==> out == (Err(BadRequest), bookings)
    ensures out.0.Ok? <==> && roomId.Some? && checkIn.Some? && checkOut.Some?
                           && IndexOf(rooms, RoomKey, roomId.value).Some?
                           && checkIn.value < checkOut.value
    ensures out.0.Err? ==> out.1 == bookings
    ensures out.0.Ok? ==> out.1 == bookings + [out.0.value]
    ensures out.0.Ok? ==> && out.0.value == Reserve(rooms[IndexOf(rooms, RoomKey, roomId.value).value], caller,
                                                   roomId.value, checkIn.value, checkOut.value,
                                                   out.0.value.id, now).value
                          && forall i :: 0 <= i < |bookings| ==> bookings[i].id != out.0.value.id
  {
    if roomId.None? || checkIn.None? || checkOut.None? then (Err(BadRequest), bookings)
    else match IndexOf(rooms, RoomKey, roomId.value)
      case None => (Err(NotFound), bookings)
      case Some(i) =>
        match Reserve(rooms[i], caller, roomId.value, checkIn.value, checkOut.value,
                      FreshKey(bookings, BookingKey), now)
        case Err(e) => (Err(e), bookings)
        case Ok(b) => (Ok(b), bookings + [b])
  }

  /** The inputs that the outcome of `bookRoom` depends on: two ledgers
      give the same verdict and the same booking up to its id. */
  lemma BookingIgnoresLedger(rooms: seq<Room>, ledger1: seq<Booking>, ledger2: seq<Booking>, caller: Id,
                             roomId: Option<Id>, checkIn: Option<int>, checkOut: Option<int>, now: int)
    ensures var r1 := BookRoom(rooms, ledger1, caller, roomId, checkIn, checkOut, now).0;
            var r2 := BookRoom(rooms, ledger2, caller, roomId, checkIn, checkOut, now).0;
            && r1.Ok? == r2.Ok?
            && (r1.Err? ==> r1 == r2)
            && (r1.Ok? ==> r1.value.(id := 0) == r2.value.(id := 0))
  {
  }

  // ---------------------------------------------------------------------
  // Listings
  // ---------------------------------------------------------------------

  function OfUser(user: Id): Booking -> bool {
    (b: Booking) => b.userId == user
  }

  function AtHotels(ids: set<Id>): Booking -> bool {
    (b: Booking) => b.hotelId in ids
  }

  function OwnedBy(vendor: Id): Hotel -> bool {
    (h: Hotel) => h.vendorId == vendor
  }

  /** The ids of the hotels whose owner is `vendor`. */
  function OwnedHotelIds(hotels: seq<Hotel>, vendor: Id): (ids: set<Id>)
    ensures forall id :: id in ids <==> exists h :: h in hotels && h.vendorId == vendor && h.id == id
  {
    set h | h in hotels && h.vendorId == vendor :: h.id
  }

  /** The bookings of `s` selected by `p`, newest first: each selected
      booking occurs in the listing exactly as often as in `s`, and no
      other booking occurs. */
  function Listing(s: seq<Booking>, p: Booking -> bool): (r: seq<Booking>)
    ensures forall b :: multiset(r)[b] == if p(b) then multiset(s)[b] else 0
    ensures NewestFirst(r, BookingTime)
  {
    var r := SortNewest(Filter(s, p), BookingTime);
    forall b
      ensures multiset(r)[b] == if p(b) then multiset(s)[b] else 0
    {
      FilterMultiplicity(s, p, b);
    }
    r
  }

  /** `getCustomerBookings`: the caller's bookings, newest first. */
  function CustomerBookings(bookings: seq<Booking>, caller: Id): (r: seq<Booking>)
    ensures forall b :: b in r <==> b in bookings && b.userId == caller
    ensures forall b :: multiset(r)[b] == if b.userId == caller then multiset(bookings)[b] else 0
    ensures NewestFirst(r, BookingTime)
  {
    var r := Listing(bookings, OfUser(caller));
    assert forall b :: b in r <==> multiset(r)[b] > 0;
    r
  }

  /** `getVendorBookings`: the bookings of every hotel the caller owns,
      newest first. */
  function VendorBookings(hotels: seq<Hotel>, bookings: seq<Booking>, caller: Id): (r: seq<Booking>)
    ensures forall b :: b in r <==> b in bookings && exists h :: h in hotels && h.vendorId == caller && h.id == b.hotelId
    ensures forall b :: multiset(r)[b] == if b.hotelId in OwnedHotelIds(hotels, caller) then multiset(bookings)[b] else 0
    ensures NewestFirst(r, BookingTime)
  {
    var r := Listing(bookings, AtHotels(OwnedHotelIds(hotels, caller)));
    assert forall b :: b in r <==> multiset(r)[b] > 0;
    r
  }

  // ---------------------------------------------------------------------
  // Cancellation
  // ---------------------------------------------------------------------

  /** `cancelBooking`: 404 when the booking does not exist, 401 when the
      caller did not make it; otherwise its status becomes cancelled,
      whatever it was before, and the updated booking is returned. */
  function Cancel(bookings: seq<Booking>, caller: Id, id: Id): (out: (Result<Booking>, seq<Booking>))
    ensures IndexOf(bookings, BookingKey, id).None? ==> out == (Err(NotFound), bookings)
    ensures var i := IndexOf(bookings, BookingKey, id);
            i.Some? && bookings[i.value].userId != caller ==> out == (Err(Unauthorized), bookings)
    ensures KeysUnique(bookings, BookingKey) ==>
              (out.0.Ok? <==> exists i :: 0 <= i < |bookings| && bookings[i].id == id && bookings[i].userId == caller)
    ensures out.0.Err? ==> out.1 == bookings
    ensures |out.1| == |bookings|
    ensures forall i :: 0 <= i < |bookings| ==>
              out.1[i] == bookings[i] || (bookings[i].id == id && out.1[i] == bookings[i].(status := Cancelled))
    ensures out.0.Ok? ==> out.0.value.id == id && out.0.value.status == Cancelled && out.0.value in out.1
  {
    match IndexOf(bookings, BookingKey, id)
    case None => (Err(NotFound), bookings)
    case Some(i) =>
      if bookings[i].userId != caller then (Err(Unauthorized), bookings)
      else
        var updated := bookings[i].(status := Cancelled);
        (Ok(updated), bookings[i := updated])
  }

  /** Cancelling is idempotent: a second cancel of the same booking
      succeeds with the same answer and changes nothing more. */
  lemma {:induction false} CancelIdempotent(bookings: seq<Booking>, caller: Id, id: Id)
    requires KeysUnique(bookings, BookingKey)
    ensures var (r1, s1) := Cancel(bookings, caller, id);
            var (r2, s2) := Cancel(s1, caller, id);
            r2 == r1 && s2 == s1
  {
    var (r1, s1) := Cancel(bookings, caller, id);
    if r1.Ok? {
      var i := IndexOf(bookings, BookingKey, id).value;
      IndexOfUnique(bookings, BookingKey, i);
      KeysUniqueUpdate(bookings, BookingKey, i, s1[i]);
      IndexOfUnique(s1, BookingKey, i);
    }
  }

  /** Cancelling changes the status of the one booking with that id and
      nothing else: every other booking and every other field is kept. */
  lemma CancelTouchesOnlyStatus(bookings: seq<Booking>, caller: Id, id: Id)
    requires KeysUnique(bookings, BookingKey)
    ensures var (r, s) := Cancel(bookings, caller, id);
            && |s| == |bookings|
            && (forall i :: 0 <= i < |s| && bookings[i].id != id ==> s[i] == bookings[i])
            && (forall i :: 0 <= i < |s| ==> s[i].(status := bookings[i].status) == bookings[i])
            && (r.Ok? ==> forall i :: 0 <= i < |s| && bookings[i].id == id ==> s[i].status == Cancelled)
  {
    var (r, s) := Cancel(bookings, caller, id);
    if r.Ok? {
      var i := IndexOf(bookings, BookingKey, id).value;
      IndexOfUnique(bookings, BookingKey, i);
    }
  }
}
