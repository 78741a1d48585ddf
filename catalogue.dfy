/** The vendor catalogue (backend/controllers/vendorController.js): the
    vendor statistics reducer and the owner-checked hotel create, update
    and delete. */
module Catalogue {
  import opened Common
  import opened Models
  import opened Ledger

  /** `recentBookings` holds at most this many bookings. */
  const RECENT_LIMIT := 5

  function InHotel(id: Id): Room -> bool {
    (r: Room) => r.hotelId == id
  }

  function InHotels(ids: set<Id>): Room -> bool {
    (r: Room) => r.hotelId in ids
  }

  function HasStatus(s: BookingStatus): Booking -> bool {
    (b: Booking) => b.status == s
  }

  function ConfirmedAt(ids: set<Id>): Booking -> bool {
    (b: Booking) => b.hotelId in ids && b.status == Confirmed
  }

  function Price(b: Booking): int { b.totalPrice }

  function IdsOf(hs: seq<Hotel>): set<Id> {
    set h | h in hs :: h.id
  }

  // ---------------------------------------------------------------------
  // getVendorStats
  // ---------------------------------------------------------------------

  /** A hotel of the vendor with its rooms attached. */
  datatype HotelRooms = HotelRooms(hotel: Hotel, roomCount: nat, rooms: seq<Room>)

  function RoomCountOf(h: HotelRooms): int { h.roomCount }

  datatype VendorSummary = VendorSummary(
    totalHotels: nat,
    totalRooms: nat,
    totalBookings: nat,
    confirmedBookings: nat,
    cancelledBookings: nat,
    totalEarnings: int)

  datatype VendorStats = VendorStats(
    summary: VendorSummary,
    hotels: seq<HotelRooms>,
    recentBookings: seq<Booking>,
    bookings: seq<Booking>)

  /** Each hotel of `hs`, in order, with the rooms of `rooms` that belong to it. */
  function WithRooms(hs: seq<Hotel>, rooms: seq<Room>): (r: seq<HotelRooms>)
    ensures |r| == |hs|
    ensures forall i :: 0 <= i < |hs| ==> && r[i].hotel == hs[i]
                                          && r[i].roomCount == |r[i].rooms|
                                          && (forall x :: x in r[i].rooms <==> x in rooms && x.hotelId == hs[i].id)
    ensures forall i :: 0 <= i < |hs| ==> r[i].rooms == Filter(rooms, InHotel(hs[i].id))
  {
    if hs == [] then []
    else
      var rs := Filter(rooms, InHotel(hs[0].id));
      [HotelRooms(hs[0], |rs|, rs)] + WithRooms(hs[1..], rooms)
  }

  /** Narrowing the rooms to those of a set of hotels first changes
      nothing for hotels of that set. */
  lemma {:induction false} WithOwnRooms(hs: seq<Hotel>, rooms: seq<Room>, ids: set<Id>)
    requires forall i :: 0 <= i < |hs| ==> hs[i].id in ids
    ensures WithRooms(hs, Filter(rooms, InHotels(ids))) == WithRooms(hs, rooms)
    decreases |hs|
  {
    if hs != [] {
      FilterFilter(rooms, InHotels(ids), InHotel(hs[0].id), InHotel(hs[0].id));
      WithOwnRooms(hs[1..], rooms, ids);
    }
  }

  /** The vendor's hotels with their rooms attached: the vendor's own
      hotels in store order, each with exactly the rooms of that hotel. */
  lemma VendorHotels(hotels: seq<Hotel>, rooms: seq<Room>, vendor: Id)
    ensures var owned := Filter(hotels, OwnedBy(vendor));
            var w := WithRooms(owned, Filter(rooms, InHotels(OwnedHotelIds(hotels, vendor))));
            && w == WithRooms(owned, rooms)
            && forall i :: 0 <= i < |w| ==>
                 && w[i].hotel.vendorId == vendor
                 && w[i].roomCount == |w[i].rooms|
                 && forall x :: x in w[i].rooms <==> x in rooms && x.hotelId == w[i].hotel.id
  {
    var owned := Filter(hotels, OwnedBy(vendor));
    var ids := OwnedHotelIds(hotels, vendor);
    assert forall i :: 0 <= i < |owned| ==> owned[i].id in ids;
    WithOwnRooms(owned, rooms, ids);
  }

  /** `getVendorStats`: 401 without a caller; otherwise the counts, the
      earnings over confirmed bookings, the hotels with their rooms, and
      the vendor's bookings newest first with the five most recent. */
  function GetVendorStats(hotels: seq<Hotel>, rooms: seq<Room>, bookings: seq<Booking>,
                          caller: Option<Id>): (r: Result<VendorStats>)
    ensures r.Err? <==> caller.None?
    ensures r.Err? ==> r.error == Unauthorized
    ensures r.Ok? ==> && r.value.summary.totalHotels == Count(hotels, OwnedBy(caller.value))
                      && r.value.summary.totalRooms == Count(rooms, InHotels(OwnedHotelIds(hotels, caller.value)))
                      && r.value.bookings == VendorBookings(hotels, bookings, caller.value)
                      && r.value.summary.totalBookings == |r.value.bookings|
    ensures r.Ok? ==> && r.value.summary.confirmedBookings == Count(r.value.bookings, HasStatus(Confirmed))
                      && r.value.summary.cancelledBookings == Count(r.value.bookings, HasStatus(Cancelled))
    ensures r.Ok? ==> r.value.summary.confirmedBookings + r.value.summary.cancelledBookings
                      <= r.value.summary.totalBookings
    ensures r.Ok? ==> && |r.value.recentBookings| == Min(RECENT_LIMIT, |r.value.bookings|)
                      && r.value.recentBookings == r.value.bookings[..|r.value.recentBookings|]
    ensures r.Ok? ==> && |r.value.hotels| == r.value.summary.totalHotels
                      && forall i :: 0 <= i < |r.value.hotels| ==>
                           && r.value.hotels[i].hotel.vendorId == caller.value
                           && r.value.hotels[i].roomCount == |r.value.hotels[i].rooms|
                           && forall x :: x in r.value.hotels[i].rooms <==>
                                            x in rooms && x.hotelId == r.value.hotels[i].hotel.id
    ensures r.Ok? ==> r.value.hotels == WithRooms(Filter(hotels, OwnedBy(caller.value)), rooms)
  {
    if caller.None? then Err(Unauthorized)
    else
      var vendor := caller.value;
      var owned := Filter(hotels, OwnedBy(vendor));
      var ids := OwnedHotelIds(hotels, vendor);
      var vendorRooms := Filter(rooms, InHotels(ids));
      var listed := VendorBookings(hotels, bookings, vendor);
      var confirmed := Filter(listed, HasStatus(Confirmed));
      var cancelled := Filter(listed, HasStatus(Cancelled));
      DisjointCounts(listed, HasStatus(Confirmed), HasStatus(Cancelled));
      var withRooms := WithRooms(owned, vendorRooms);
      VendorHotels(hotels, rooms, vendor);
      Ok(VendorStats(
        VendorSummary(|owned|, |vendorRooms|, |listed|, |confirmed|, |cancelled|, Sum(confirmed, Price)),
        withRooms,
        listed[..Min(RECENT_LIMIT, |listed|)],
        listed))
  }

  /** The earnings are the sum of the prices of the vendor's confirmed
      bookings, whatever order the store keeps them in. */
  lemma VendorEarnings(hotels: seq<Hotel>, rooms: seq<Room>, bookings: seq<Booking>, vendor: Id)
    ensures GetVendorStats(hotels, rooms, bookings, Some(vendor)).value.summary.totalEarnings
            == Sum(Filter(bookings, ConfirmedAt(OwnedHotelIds(hotels, vendor))), Price)
  {
    var ids := OwnedHotelIds(hotels, vendor);
    var mine := Filter(bookings, AtHotels(ids));
    var listed := VendorBookings(hotels, bookings, vendor);
    assert listed == SortNewest(mine, BookingTime);
    FilterPermutation(listed, mine, HasStatus(Confirmed));
    FilterFilter(bookings, AtHotels(ids), HasStatus(Confirmed), ConfirmedAt(ids));
    SumPermutation(Filter(listed, HasStatus(Confirmed)), Filter(mine, HasStatus(Confirmed)), Price);
  }

  /** Counting the rooms of each of several distinct hotels and adding up
      gives the number of rooms in all of them. */
  lemma {:induction false} RoomCountsAddUp(hs: seq<Hotel>, rooms: seq<Room>)
    requires KeysUnique(hs, HotelKey)
    ensures Sum(WithRooms(hs, rooms), RoomCountOf) == Count(rooms, InHotels(IdsOf(hs)))
  {
    if hs == [] {
      assert IdsOf(hs) == {};
      FilterNoneHotels(rooms);
    } else {
      var tail := hs[1..];
      UniqueHead(hs);
      RoomCountsAddUp(tail, rooms);
      var w := WithRooms(hs, rooms);
      assert w[1..] == WithRooms(tail, rooms);
      CountUnion(rooms, InHotel(hs[0].id), InHotels(IdsOf(tail)), InHotels(IdsOf(hs)));
    }
  }

  /** The head of a list of distinct hotels is not among the rest. */
  lemma UniqueHead(hs: seq<Hotel>)
    requires KeysUnique(hs, HotelKey) && hs != []
    ensures KeysUnique(hs[1..], HotelKey)
    ensures hs[0].id !in IdsOf(hs[1..])
    ensures IdsOf(hs) == {hs[0].id} + IdsOf(hs[1..])
  {
    var tail := hs[1..];
    forall i, j | 0 <= i < j < |tail| ensures tail[i].id != tail[j].id {
      assert HotelKey(hs[i + 1]) != HotelKey(hs[j + 1]);
    }
    forall h | h in tail ensures h.id != hs[0].id {
      var k :| 0 <= k < |tail| && tail[k] == h;
      assert HotelKey(hs[0]) != HotelKey(hs[k + 1]);
    }
    assert hs == [hs[0]] + tail;
  }

  lemma FilterNoneHotels(rooms: seq<Room>)
    ensures Filter(rooms, InHotels({})) == []
  {
  }

  /** The per-hotel room counts of the statistics add up to `totalRooms`. */
  lemma StatsRoomCountsSum(hotels: seq<Hotel>, rooms: seq<Room>, bookings: seq<Booking>, vendor: Id)
    requires KeysUnique(hotels, HotelKey)
    ensures var stats := GetVendorStats(hotels, rooms, bookings, Some(vendor)).value;
            Sum(stats.hotels, RoomCountOf) == stats.summary.totalRooms
  {
    var owned := Filter(hotels, OwnedBy(vendor));
    var ids := OwnedHotelIds(hotels, vendor);
    var vendorRooms := Filter(rooms, InHotels(ids));
    KeysUniqueFilter(hotels, HotelKey, OwnedBy(vendor));
    RoomCountsAddUp(owned, vendorRooms);
    assert IdsOf(owned) == ids;
    FilterAll(vendorRooms, InHotels(ids));
  }

  // ---------------------------------------------------------------------
  // createHotel, updateHotel, deleteHotel
  // ---------------------------------------------------------------------

  /** `createHotel`: 400 unless name, location and description are given;
      otherwise the hotel document is created for the caller with the
      given images as its image list, and the schema may still refuse it. */
  function CreateHotel(hotels: seq<Hotel>, caller: Id, name: Option<string>, location: Option<string>,
                       description: Option<string>, amenities: Option<seq<string>>,
                       images: Option<seq<string>>, now: int): (out: (Result<Hotel>, seq<Hotel>))
    ensures !(Given(name) && Given(location) && Given(description)) ==> out == (Err(BadRequest), hotels)
    ensures Given(name) && Given(location) && Given(description) ==>
              (out.0.Ok? <==> && Trim(name.value) != "" && Utf16Length(Trim(name.value)) <= HOTEL_NAME_MAX
                              && Utf16Length(description.value) <= HOTEL_DESCRIPTION_MAX)
    ensures Given(name) && Given(location) && Given(description) && out.0.Err? ==> out.0.error == Invalid
    ensures out.0.Err? ==> out.1 == hotels
    ensures out.0.Ok? ==> && out.1 == hotels + [out.0.value]
                          && HotelValid(out.0.value)
                          && out.0.value.vendorId == caller
                          && out.0.value.name == Trim(name.value)
                          && out.0.value.location == location.value
                          && out.0.value.description == description.value
                          && out.0.value.amenities == amenities.GetOr([])
                          && out.0.value.imageUrls == images.GetOr([])
                          && out.0.value.isActive
                          && out.0.value.createdAt == now
                          && forall i :: 0 <= i < |hotels| ==> hotels[i].id != out.0.value.id
  {
    if !(Given(name) && Given(location) && Given(description)) then (Err(BadRequest), hotels)
    else
      var fields := HotelFields(Some(caller), name, location, description, amenities, images, None, None);
      match NewHotel(FreshKey(hotels, HotelKey), fields, now)
      case Err(e) => (Err(e), hotels)
      case Ok(h) => (Ok(h), hotels + [h])
  }

  /** The body of an update request: any schema path, plus `images`. */
  datatype HotelPatch = HotelPatch(
    vendorId: Option<Id>,
    name: Option<string>,
    location: Option<string>,
    description: Option<string>,
    amenities: Option<seq<string>>,
    imageUrls: Option<seq<string>>,
    isActive: Option<bool>,
    createdAt: Option<int>,
    images: Option<seq<string>>)

  /** `findByIdAndUpdate` with the request body: every schema path the body
      gives overwrites the stored one (the name through its trim setter);
      validators do not run, and `images` is not a schema path. */
  function Merge(h: Hotel, p: HotelPatch): (m: Hotel)
    ensures m.id == h.id
  {
    h.(vendorId := p.vendorId.GetOr(h.vendorId),
       name := if p.name.Some? then Trim(p.name.value) else h.name,
       location := p.location.GetOr(h.location),
       description := p.description.GetOr(h.description),
       amenities := p.amenities.GetOr(h.amenities),
       imageUrls := p.imageUrls.GetOr(h.imageUrls),
       isActive := p.isActive.GetOr(h.isActive),
       createdAt := p.createdAt.GetOr(h.createdAt))
  }

  /** `updateHotel`: 404 when the hotel does not exist and 401 when the
      caller does not own it, both leaving the hotels unchanged. Otherwise
      the merge is stored; when the body has `images` they become the image
      list and the document is saved, which validates it: a failure there
      reports `Invalid` but leaves the merge in place. */
  function UpdateHotel(hotels: seq<Hotel>, caller: Id, id: Id, patch: HotelPatch)
    : (out: (Result<Hotel>, seq<Hotel>))
    ensures IndexOf(hotels, HotelKey, id).None? ==> out == (Err(NotFound), hotels)
    ensures var i := IndexOf(hotels, HotelKey, id);
            i.Some? && hotels[i.value].vendorId != caller ==> out == (Err(Unauthorized), hotels)
    ensures |out.1| == |hotels|
    ensures forall j :: 0 <= j < |hotels| && hotels[j].id != id ==> out.1[j] == hotels[j]
    ensures var i := IndexOf(hotels, HotelKey, id);
            i.Some? && hotels[i.value].vendorId == caller ==>
              var merged := Merge(hotels[i.value], patch);
              && (patch.images.None? ==> out == (Ok(merged), hotels[i.value := merged]))
              && (patch.images.Some? && HotelValid(merged.(imageUrls := patch.images.value)) ==>
                    out == (Ok(merged.(imageUrls := patch.images.value)),
                            hotels[i.value := merged.(imageUrls := patch.images.value)]))
              && (patch.images.Some? && !HotelValid(merged.(imageUrls := patch.images.value)) ==>
                    out == (Err(Invalid), hotels[i.value := merged]))
  {
    match IndexOf(hotels, HotelKey, id)
    case None => (Err(NotFound), hotels)
    case Some(i) =>
      if hotels[i].vendorId != caller then (Err(Unauthorized), hotels)
      else
        var merged := Merge(hotels[i], patch);
        if patch.images.None? then (Ok(merged), hotels[i := merged])
        else
          var withImages := merged.(imageUrls := patch.images.value);
          if HotelValid(withImages) then (Ok(withImages), hotels[i := withImages])
          else (Err(Invalid), hotels[i := merged])
  }

  /** Without `images` nothing validates the update: an owner can store a
      name longer than the schema allows. */
  lemma UpdateSkipsValidation()
    ensures var h := Hotel(1, 7, "Inn", "Goa", "By the sea", [], [], true, 0);
            var long := seq(HOTEL_NAME_MAX + 1, _ => 'a');
            var out := UpdateHotel([h], 7, 1, HotelPatch(None, Some(long), None, None, None, None, None, None, None));
            out.0.Ok? && !HotelValid(out.1[0])
  {
    var long := seq(HOTEL_NAME_MAX + 1, _ => 'a');
    assert IsTrimmed(long);
    Utf16LengthBmp(long);
  }

  function NotInHotel(id: Id): Room -> bool {
    (r: Room) => r.hotelId != id
  }

  /** `deleteHotel`: 404 when absent and 401 when not the caller's, both
      leaving hotels and rooms unchanged; otherwise the hotel is removed and
      so is every room of that hotel. Bookings are not touched. */
  function DeleteHotel(hotels: seq<Hotel>, rooms: seq<Room>, caller: Id, id: Id)
    : (out: (Result<Id>, seq<Hotel>, seq<Room>))
    ensures IndexOf(hotels, HotelKey, id).None? ==> out == (Err(NotFound), hotels, rooms)
    ensures var i := IndexOf(hotels, HotelKey, id);
            i.Some? && hotels[i.value].vendorId != caller ==> out == (Err(Unauthorized), hotels, rooms)
    ensures out.0.Ok? <==> && IndexOf(hotels, HotelKey, id).Some?
                           && hotels[IndexOf(hotels, HotelKey, id).value].vendorId == caller
    ensures out.0.Ok? ==> && out.0.value == id
                          && var i := IndexOf(hotels, HotelKey, id).value;
                             out.1 == hotels[..i] + hotels[i + 1..]
    ensures out.0.Ok? ==> forall x :: x in out.2 <==> x in rooms && x.hotelId != id
    ensures out.0.Ok? ==> forall x :: multiset(out.2)[x] == if x.hotelId != id then multiset(rooms)[x] else 0
    ensures out.0.Ok? && KeysUnique(hotels, HotelKey) ==> forall h :: h in out.1 <==> h in hotels && h.id != id
  {
    match IndexOf(hotels, HotelKey, id)
    case None => (Err(NotFound), hotels, rooms)
    case Some(i) =>
      if hotels[i].vendorId != caller then (Err(Unauthorized), hotels, rooms)
      else
        var rest := hotels[..i] + hotels[i + 1..];
        assert KeysUnique(hotels, HotelKey) ==> forall h :: h in rest <==> h in hotels && h.id != id by {
          if KeysUnique(hotels, HotelKey) {
            RemoveAtMembers(hotels, HotelKey, i);
          }
        }
        forall x ensures multiset(Filter(rooms, NotInHotel(id)))[x] == if x.hotelId != id then multiset(rooms)[x] else 0 {
          FilterMultiplicity(rooms, NotInHotel(id), x);
        }
        (Ok(id), rest, Filter(rooms, NotInHotel(id)))
  }
}
