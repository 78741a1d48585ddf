/** The in-memory store that the handlers load records from and save
    records to: one collection per model. Each mutating handler is a method
    that works step by step (look the record up, check, assign, save) and
    ends in the state, and with the response, that the handler's transition
    function computes from the state before. The route gates
    (`authorize('customer')`, `authorize('vendor')`, `authorize('admin')`)
    are preconditions on the caller's role. */
module Store {
  import opened Common
  import opened Models
  import opened Ledger
  import opened Catalogue
  import opened Admin
  import Wishlist

  /** The facts every state of the store keeps: ids unique in each
      collection, stored users valid with duplicate-free wishlists, and no
      two users with one email. Stored hotels need not be valid, since an
      update can bypass the validators. */
  ghost predicate Consistent(users: seq<User>, hotels: seq<Hotel>, rooms: seq<Room>, bookings: seq<Booking>) {
    && KeysUnique(users, UserKey)
    && KeysUnique(hotels, HotelKey)
    && KeysUnique(rooms, RoomKey)
    && KeysUnique(bookings, BookingKey)
    && (forall i :: 0 <= i < |users| ==> UserValid(users[i]) && Wishlist.Distinct(users[i].wishlist))
    && EmailsUnique(users)
  }

  /** `findById`: a scan for the first record carrying `id`. */
  method Find<T>(s: seq<T>, key: T -> Id, id: Id) returns (r: Option<nat>)
    ensures r == IndexOf(s, key, id)
  {
    var j := 0;
    while j < |s|
      invariant 0 <= j <= |s|
      invariant forall k :: 0 <= k < j ==> key(s[k]) != id
    {
      if key(s[j]) == id {
        IndexOfFirst(s, key, id, j);
        return Some(j);
      }
      j := j + 1;
    }
    return None;
  }

  /** Replacing a user by a valid record with the same id and email keeps
      the store consistent. */
  lemma ConsistentReplaceUser(users: seq<User>, hotels: seq<Hotel>, rooms: seq<Room>, bookings: seq<Booking>,
                              i: nat, u: User)
    requires Consistent(users, hotels, rooms, bookings) && i < |users|
    requires u.id == users[i].id && u.email == users[i].email
    requires UserValid(u) && Wishlist.Distinct(u.wishlist)
    ensures Consistent(users[i := u], hotels, rooms, bookings)
  {
    KeysUniqueUpdate(users, UserKey, i, u);
  }

  /** Removing a user keeps the store consistent. */
  lemma ConsistentRemoveUser(users: seq<User>, hotels: seq<Hotel>, rooms: seq<Room>, bookings: seq<Booking>, i: nat)
    requires Consistent(users, hotels, rooms, bookings) && i < |users|
    ensures Consistent(users[..i] + users[i + 1..], hotels, rooms, bookings)
  {
    var rest := users[..i] + users[i + 1..];
    KeysUniqueRemove(users, UserKey, i);
    forall a | 0 <= a < |rest|
      ensures rest[a] == users[if a < i then a else a + 1]
    {
    }
  }

  class Store {
    var users: seq<User>
    var hotels: seq<Hotel>
    var rooms: seq<Room>
    var bookings: seq<Booking>

    ghost predicate Valid()
      reads this
    {
      Consistent(users, hotels, rooms, bookings)
    }

    /** The caller is a stored user with the given role. */
    predicate HasRole(caller: Id, role: Role)
      reads this
    {
      var i := IndexOf(users, UserKey, caller);
      i.Some? && users[i.value].role == role
    }

    constructor (users0: seq<User>, hotels0: seq<Hotel>, rooms0: seq<Room>, bookings0: seq<Booking>)
      requires Consistent(users0, hotels0, rooms0, bookings0)
      ensures Valid()
      ensures users == users0 && hotels == hotels0 && rooms == rooms0 && bookings == bookings0
    {
      users := users0;
      hotels := hotels0;
      rooms := rooms0;
      bookings := bookings0;
    }

    // -------------------------------------------------------------------
    // Customer handlers
    // -------------------------------------------------------------------

    /** `bookRoom`. */
    method BookRoom(caller: Id, roomId: Option<Id>, checkIn: Option<int>, checkOut: Option<int>, now: int)
      returns (r: Result<Booking>)
      requires Valid() && HasRole(caller, Customer)
      modifies this
      ensures Valid()
      ensures (r, bookings) == Ledger.BookRoom(old(rooms), old(bookings), caller, roomId, checkIn, checkOut, now)
      ensures users == old(users) && hotels == old(hotels) && rooms == old(rooms)
    {
      if roomId.None? || checkIn.None? || checkOut.None? {
        return Err(BadRequest);
      }
      var i := Find(rooms, RoomKey, roomId.value);
      if i.None? {
        return Err(NotFound);
      }
      var room := rooms[i.value];
      var nights := Nights(checkIn.value, checkOut.value);
      if nights <= 0 {
        return Err(BadRequest);
      }
      var booking := Booking(FreshKey(bookings, BookingKey), caller, roomId.value, room.hotelId,
                             checkIn.value, checkOut.value, room.pricePerNight * nights, Confirmed, now);
      KeysUniqueAppend(bookings, BookingKey, booking);
      bookings := bookings + [booking];
      r := Ok(booking);
    }

    /** `cancelBooking`. */
    method CancelBooking(caller: Id, id: Id) returns (r: Result<Booking>)
      requires Valid() && HasRole(caller, Customer)
      modifies this
      ensures Valid()
      ensures (r, bookings) == Cancel(old(bookings), caller, id)
      ensures users == old(users) && hotels == old(hotels) && rooms == old(rooms)
    {
      var i := Find(bookings, BookingKey, id);
      if i.None? {
        return Err(NotFound);
      }
      if bookings[i.value].userId != caller {
        return Err(Unauthorized);
      }
      var updated := bookings[i.value].(status := Cancelled);
      KeysUniqueUpdate(bookings, BookingKey, i.value, updated);
      bookings := bookings[i.value := updated];
      r := Ok(updated);
    }

    /** `addToWishlist`: the caller's own record is loaded and its list
        extended unless the hotel is already on it. */
    method AddToWishlist(caller: Id, hotelId: Id) returns (r: Result<seq<Id>>)
      requires Valid() && HasRole(caller, Customer)
      modifies this
      ensures Valid()
      ensures var i := IndexOf(old(users), UserKey, caller).value;
              && r == Wishlist.Add(old(users)[i].wishlist, hotelId)
              && users == if r.Ok? then old(users)[i := old(users)[i].(wishlist := r.value)] else old(users)
      ensures hotels == old(hotels) && rooms == old(rooms) && bookings == old(bookings)
    {
      var i := Find(users, UserKey, caller);
      var k := i.value;
      var w := users[k].wishlist;
      if hotelId in w {
        return Err(BadRequest);
      }
      var u := users[k].(wishlist := w + [hotelId]);
      Wishlist.AddKeepsDistinct(w, hotelId);
      ConsistentReplaceUser(users, hotels, rooms, bookings, k, u);
      users := users[k := u];
      r := Ok(u.wishlist);
    }

    /** `removeFromWishlist`: every occurrence of the hotel is dropped
        from the caller's list. */
    method RemoveFromWishlist(caller: Id, hotelId: Id) returns (w: seq<Id>)
      requires Valid() && HasRole(caller, Customer)
      modifies this
      ensures Valid()
      ensures var i := IndexOf(old(users), UserKey, caller).value;
              && w == Wishlist.Remove(old(users)[i].wishlist, hotelId)
              && users == old(users)[i := old(users)[i].(wishlist := w)]
      ensures hotels == old(hotels) && rooms == old(rooms) && bookings == old(bookings)
    {
      var i := Find(users, UserKey, caller);
      var k := i.value;
      w := Wishlist.Remove(users[k].wishlist, hotelId);
      var u := users[k].(wishlist := w);
      Wishlist.RemoveKeepsDistinct(users[k].wishlist, hotelId);
      ConsistentReplaceUser(users, hotels, rooms, bookings, k, u);
      users := users[k := u];
    }

    // -------------------------------------------------------------------
    // Vendor handlers
    // -------------------------------------------------------------------

    /** `createHotel`. */
    method CreateHotel(caller: Id, name: Option<string>, location: Option<string>, description: Option<string>,
                       amenities: Option<seq<string>>, images: Option<seq<string>>, now: int)
      returns (r: Result<Hotel>)
      requires Valid() && HasRole(caller, Vendor)
      modifies this
      ensures Valid()
      ensures (r, hotels) == Catalogue.CreateHotel(old(hotels), caller, name, location, description,
                                                   amenities, images, now)
      ensures users == old(users) && rooms == old(rooms) && bookings == old(bookings)
    {
      ghost var spec := Catalogue.CreateHotel(hotels, caller, name, location, description, amenities, images, now);
      if !(Given(name) && Given(location) && Given(description)) {
        return Err(BadRequest);
      }
      var fields := HotelFields(Some(caller), name, location, description, amenities, images, None, None);
      r := NewHotel(FreshKey(hotels, HotelKey), fields, now);
      assert spec == if r.Ok? then (r, hotels + [r.value]) else (r, hotels);
      if r.Ok? {
        KeysUniqueAppend(hotels, HotelKey, r.value);
        hotels := hotels + [r.value];
      }
    }

    /** `updateHotel`: the merge is written first; when images are sent
        they are assigned and the document is saved, and a failing save
        leaves the merge stored. */
    method UpdateHotel(caller: Id, id: Id, patch: HotelPatch) returns (r: Result<Hotel>)
      requires Valid() && HasRole(caller, Vendor)
      modifies this
      ensures Valid()
      ensures (r, hotels) == Catalogue.UpdateHotel(old(hotels), caller, id, patch)
      ensures users == old(users) && rooms == old(rooms) && bookings == old(bookings)
    {
      var i := Find(hotels, HotelKey, id);
      if i.None? {
        return Err(NotFound);
      }
      var k := i.value;
      if hotels[k].vendorId != caller {
        return Err(Unauthorized);
      }
      var merged := Merge(hotels[k], patch);
      KeysUniqueUpdate(hotels, HotelKey, k, merged);
      hotels := hotels[k := merged];
      r := Ok(merged);
      if patch.images.Some? {
        var withImages := merged.(imageUrls := patch.images.value);
        if HotelValid(withImages) {
          KeysUniqueUpdate(hotels, HotelKey, k, withImages);
          assert hotels[k := withImages] == old(hotels)[k := withImages];
          hotels := hotels[k := withImages];
          r := Ok(withImages);
        } else {
          r := Err(Invalid);
        }
      }
    }

    /** `deleteHotel`: the hotel, then every room of it. */
    method DeleteHotel(caller: Id, id: Id) returns (r: Result<Id>)
      requires Valid() && HasRole(caller, Vendor)
      modifies this
      ensures Valid()
      ensures (r, hotels, rooms) == Catalogue.DeleteHotel(old(hotels), old(rooms), caller, id)
      ensures users == old(users) && bookings == old(bookings)
    {
      var i := Find(hotels, HotelKey, id);
      if i.None? {
        return Err(NotFound);
      }
      var k := i.value;
      if hotels[k].vendorId != caller {
        return Err(Unauthorized);
      }
      KeysUniqueRemove(hotels, HotelKey, k);
      hotels := hotels[..k] + hotels[k + 1..];
      KeysUniqueFilter(rooms, RoomKey, NotInHotel(id));
      rooms := Filter(rooms, NotInHotel(id));
      r := Ok(id);
    }

    // -------------------------------------------------------------------
    // Admin handlers
    // -------------------------------------------------------------------

    /** `toggleUserBlock`. The save cannot fail: the stored user is valid
        and the block flag has no validator. */
    method ToggleUserBlock(admin: Id, id: Id) returns (r: Result<User>)
      requires Valid() && HasRole(admin, Admin)
      modifies this
      ensures Valid()
      ensures (r, users) == Admin.ToggleUserBlock(old(users), id)
      ensures hotels == old(hotels) && rooms == old(rooms) && bookings == old(bookings)
    {
      var i := Find(users, UserKey, id);
      if i.None? {
        return Err(NotFound);
      }
      var k := i.value;
      if users[k].role == Admin {
        return Err(BadRequest);
      }
      var u := users[k].(isBlocked := !users[k].isBlocked);
      ConsistentReplaceUser(users, hotels, rooms, bookings, k, u);
      users := users[k := u];
      r := Ok(WithoutPassword(u));
    }

    /** `updateUserRole`: a value outside the role enum fails validation
        on save and nothing is stored. */
    method UpdateUserRole(admin: Id, id: Id, role: string) returns (r: Result<User>)
      requires Valid() && HasRole(admin, Admin)
      modifies this
      ensures Valid()
      ensures (r, users) == Admin.UpdateUserRole(old(users), id, role)
      ensures hotels == old(hotels) && rooms == old(rooms) && bookings == old(bookings)
    {
      var i := Find(users, UserKey, id);
      if i.None? {
        return Err(NotFound);
      }
      var k := i.value;
      if users[k].role == Admin {
        return Err(BadRequest);
      }
      var parsed := ParseRole(role);
      if parsed.None? {
        return Err(Invalid);
      }
      var u := users[k].(role := parsed.value);
      ConsistentReplaceUser(users, hotels, rooms, bookings, k, u);
      users := users[k := u];
      r := Ok(WithoutPassword(u));
    }

    /** `updateVendorStatus`: the status is checked before the lookup. */
    method UpdateVendorStatus(admin: Id, id: Id, status: string) returns (r: Result<User>)
      requires Valid() && HasRole(admin, Admin)
      modifies this
      ensures Valid()
      ensures (r, users) == Admin.UpdateVendorStatus(old(users), id, status)
      ensures hotels == old(hotels) && rooms == old(rooms) && bookings == old(bookings)
    {
      if !AssignableVendorStatus(status) {
        return Err(BadRequest);
      }
      var i := Find(users, UserKey, id);
      if i.None? || users[i.value].role != Vendor {
        return Err(NotFound);
      }
      var k := i.value;
      var u := users[k].(vendorStatus := ParseVendorStatus(status).value);
      ConsistentReplaceUser(users, hotels, rooms, bookings, k, u);
      users := users[k := u];
      r := Ok(WithoutPassword(u));
    }

    /** `toggleHotelStatus`: the save runs the hotel validators, which a
        hotel stored by an unvalidated update may fail. */
    method ToggleHotelStatus(admin: Id, id: Id) returns (r: Result<Hotel>)
      requires Valid() && HasRole(admin, Admin)
      modifies this
      ensures Valid()
      ensures (r, hotels) == Admin.ToggleHotelStatus(old(hotels), id)
      ensures users == old(users) && rooms == old(rooms) && bookings == old(bookings)
    {
      var i := Find(hotels, HotelKey, id);
      if i.None? {
        return Err(NotFound);
      }
      var k := i.value;
      var h := hotels[k].(isActive := !hotels[k].isActive);
      if !HotelValid(h) {
        return Err(Invalid);
      }
      KeysUniqueUpdate(hotels, HotelKey, k, h);
      hotels := hotels[k := h];
      r := Ok(h);
    }

    /** `deleteUser`: the user document only; the user's bookings and
        hotels stay. */
    method DeleteUser(admin: Id, id: Id) returns (r: Result<Id>)
      requires Valid() && HasRole(admin, Admin)
      modifies this
      ensures Valid()
      ensures (r, users) == Admin.DeleteUser(old(users), id)
      ensures hotels == old(hotels) && rooms == old(rooms) && bookings == old(bookings)
    {
      var i := Find(users, UserKey, id);
      if i.None? {
        return Err(NotFound);
      }
      var k := i.value;
      if users[k].role == Admin {
        return Err(BadRequest);
      }
      ConsistentRemoveUser(users, hotels, rooms, bookings, k);
      users := users[..k] + users[k + 1..];
      r := Ok(id);
    }
  }
}
