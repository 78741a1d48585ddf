/** The admin console (backend/controllers/adminController.js): global
    counts and revenue, the block, role, vendor-status and active toggles,
    user deletion, the per-vendor report and the booking search. Every
    handler here is reachable by admins only; that gate is a precondition
    of the store methods, not of these functions. */
module Admin {
  import opened Common
  import opened Models
  import opened Ledger
  import opened Catalogue

  // ---------------------------------------------------------------------
  // getAdminDashboard
  // ---------------------------------------------------------------------

  datatype AdminStats = AdminStats(
    users: nat,
    vendors: nat,
    hotels: nat,
    rooms: nat,
    bookings: nat,
    revenue: int)

  datatype AdminDashboard = AdminDashboard(
    stats: AdminStats,
    recentHotels: seq<Hotel>,
    recentUsers: seq<User>)

  function IsVendor(): User -> bool {
    (u: User) => u.role == Vendor
  }

  /** The platform revenue: the prices of the confirmed bookings added up.
      `totalPrice` is a required path, so the `|| 0` of the reducer only
      matters for a price of 0, which adds the same. */
  function Revenue(bookings: seq<Booking>): int {
    Sum(Filter(bookings, HasStatus(Confirmed)), Price)
  }

  /** Each user with its password path left out. */
  function Stripped(s: seq<User>): (r: seq<User>)
    ensures |r| == |s|
    ensures forall i :: 0 <= i < |s| ==> r[i] == WithoutPassword(s[i])
  {
    seq(|s|, i requires 0 <= i < |s| => WithoutPassword(s[i]))
  }

  /** The five newest users, without their passwords. */
  function RecentUsers(users: seq<User>): (r: seq<User>)
    ensures |r| == Min(RECENT_LIMIT, |users|)
    ensures NewestFirst(r, UserTime)
    ensures forall i :: 0 <= i < |r| ==> r[i].password.None?
    ensures r == Stripped(TopNewest(users, RECENT_LIMIT, UserTime))
  {
    var top := TopNewest(users, RECENT_LIMIT, UserTime);
    var r := Stripped(top);
    assert forall i :: 0 <= i < |top| ==> UserTime(r[i]) == UserTime(top[i]);
    r
  }

  /** `getAdminDashboard`: the sizes of the four collections, the number
      of vendors, the revenue, and the five newest hotels and users, the
      users without their passwords. */
  function GetAdminDashboard(users: seq<User>, hotels: seq<Hotel>, rooms: seq<Room>,
                             bookings: seq<Booking>): (r: AdminDashboard)
    ensures && r.stats.users == |users|
            && r.stats.vendors == Count(users, IsVendor())
            && r.stats.vendors <= r.stats.users
            && r.stats.hotels == |hotels|
            && r.stats.rooms == |rooms|
            && r.stats.bookings == |bookings|
            && r.stats.revenue == Revenue(bookings)
    ensures && |r.recentHotels| == Min(RECENT_LIMIT, |hotels|)
            && NewestFirst(r.recentHotels, HotelTime)
            && multiset(r.recentHotels) <= multiset(hotels)
            && forall x, y :: x in multiset(hotels) - multiset(r.recentHotels) && y in r.recentHotels
                 ==> HotelTime(x) <= HotelTime(y)
    ensures && |r.recentUsers| == Min(RECENT_LIMIT, |users|)
            && NewestFirst(r.recentUsers, UserTime)
            && forall i :: 0 <= i < |r.recentUsers| ==> r.recentUsers[i].password.None?
    ensures r.recentHotels == TopNewest(hotels, RECENT_LIMIT, HotelTime)
    ensures r.recentUsers == RecentUsers(users)
  {
    AdminDashboard(
      AdminStats(|users|, Count(users, IsVendor()), |hotels|, |rooms|, |bookings|, Revenue(bookings)),
      TopNewest(hotels, RECENT_LIMIT, HotelTime),
      RecentUsers(users))
  }

  /** Every booking is confirmed, cancelled or completed, so the revenue
      and the cancelled and completed sums add up to all the prices. */
  lemma {:induction false} RevenuePartition(bookings: seq<Booking>)
    ensures Sum(bookings, Price) == Revenue(bookings)
                                    + Sum(Filter(bookings, HasStatus(Cancelled)), Price)
                                    + Sum(Filter(bookings, HasStatus(Completed)), Price)
  {
    if bookings != [] {
      var b := bookings[0];
      var rest := bookings[1..];
      RevenuePartition(rest);
      var h1 := if HasStatus(Confirmed)(b) then [b] else [];
      var h2 := if HasStatus(Cancelled)(b) then [b] else [];
      var h3 := if HasStatus(Completed)(b) then [b] else [];
      SumConcat(h1, Filter(rest, HasStatus(Confirmed)), Price);
      SumConcat(h2, Filter(rest, HasStatus(Cancelled)), Price);
      SumConcat(h3, Filter(rest, HasStatus(Completed)), Price);
    }
  }

  /** A successful cancellation takes the booking's price off the revenue
      when the booking was confirmed, and leaves the revenue as it was
      otherwise. */
  lemma RevenueAfterCancel(bookings: seq<Booking>, caller: Id, id: Id)
    requires KeysUnique(bookings, BookingKey)
    ensures var (r, after) := Cancel(bookings, caller, id);
            r.Ok? ==> var i := IndexOf(bookings, BookingKey, id).value;
                      Revenue(after) == Revenue(bookings)
                                        - (if bookings[i].status == Confirmed then bookings[i].totalPrice else 0)
  {
    var (r, after) := Cancel(bookings, caller, id);
    if r.Ok? {
      var i := IndexOf(bookings, BookingKey, id).value;
      SumFilterUpdate(bookings, i, bookings[i].(status := Cancelled), HasStatus(Confirmed), Price);
    }
  }

  // ---------------------------------------------------------------------
  // User toggles, role and vendor-status updates, deletion
  // ---------------------------------------------------------------------

  /** `user.save()` on the updated record at position `i`. The record was
      loaded by `findById`, which leaves out the password path, so the
      validators run on the other paths, the stored password is kept, and
      the answer is the record without its password. A refusal stores
      nothing. */
  function SaveUser(users: seq<User>, i: nat, u: User): (out: (Result<User>, seq<User>))
    requires i < |users|
    ensures UserValid(WithoutPassword(u)) ==> out == (Ok(WithoutPassword(u)), users[i := u])
    ensures !UserValid(WithoutPassword(u)) ==> out == (Err(Invalid), users)
    ensures out.0.Ok? ==> out.0.value.password.None?
  {
    if UserValid(WithoutPassword(u)) then (Ok(WithoutPassword(u)), users[i := u]) else (Err(Invalid), users)
  }

  /** `toggleUserBlock`: 404 when absent, 400 for an admin; otherwise the
      block flag is negated and the user saved. */
  function ToggleUserBlock(users: seq<User>, id: Id): (out: (Result<User>, seq<User>))
    ensures IndexOf(users, UserKey, id).None? ==> out == (Err(NotFound), users)
    ensures var i := IndexOf(users, UserKey, id);
            i.Some? && users[i.value].role == Admin ==> out == (Err(BadRequest), users)
    ensures var i := IndexOf(users, UserKey, id);
            i.Some? && users[i.value].role != Admin && UserValid(users[i.value]) ==>
              var u := users[i.value].(isBlocked := !users[i.value].isBlocked);
              out == (Ok(WithoutPassword(u)), users[i.value := u])
    ensures out.0.Err? ==> out.1 == users
  {
    match IndexOf(users, UserKey, id)
    case None => (Err(NotFound), users)
    case Some(i) =>
      if users[i].role == Admin then (Err(BadRequest), users)
      else SaveUser(users, i, users[i].(isBlocked := !users[i].isBlocked))
  }

  /** Toggling the block flag twice gives back the users as they were. */
  lemma ToggleUserBlockTwice(users: seq<User>, id: Id)
    requires KeysUnique(users, UserKey)
    ensures var (r1, s1) := ToggleUserBlock(users, id);
            var (r2, s2) := ToggleUserBlock(s1, id);
            r1.Ok? ==> r2.Ok? && r2.value.isBlocked == !r1.value.isBlocked && s2 == users
  {
    var (r1, s1) := ToggleUserBlock(users, id);
    if r1.Ok? {
      var i := IndexOf(users, UserKey, id).value;
      KeysUniqueUpdate(users, UserKey, i, s1[i]);
      IndexOfUnique(s1, UserKey, i);
      assert s1[i := s1[i].(isBlocked := !s1[i].isBlocked)] == users;
    }
  }

  /** `updateUserRole`: 404 when absent, 400 for an admin; otherwise the
      role becomes the requested value, which the enum validator of the
      save refuses unless it names a role. Nothing stops `admin`. */
  function UpdateUserRole(users: seq<User>, id: Id, role: string): (out: (Result<User>, seq<User>))
    ensures IndexOf(users, UserKey, id).None? ==> out == (Err(NotFound), users)
    ensures var i := IndexOf(users, UserKey, id);
            i.Some? && users[i.value].role == Admin ==> out == (Err(BadRequest), users)
    ensures var i := IndexOf(users, UserKey, id);
            i.Some? && users[i.value].role != Admin && ParseRole(role).None? ==> out == (Err(Invalid), users)
    ensures var i := IndexOf(users, UserKey, id);
            i.Some? && users[i.value].role != Admin && ParseRole(role).Some? && UserValid(users[i.value]) ==>
              && out.0.Ok? && RoleName(out.0.value.role) == role
              && out == (Ok(WithoutPassword(users[i.value].(role := ParseRole(role).value))),
                         users[i.value := users[i.value].(role := ParseRole(role).value)])
    ensures out.0.Err? ==> out.1 == users
  {
    match IndexOf(users, UserKey, id)
    case None => (Err(NotFound), users)
    case Some(i) =>
      if users[i].role == Admin then (Err(BadRequest), users)
      else match ParseRole(role)
        case None => (Err(Invalid), users)
        case Some(r) => SaveUser(users, i, users[i].(role := r))
  }

  /** `deleteUser`: 404 when absent, 400 for an admin; otherwise exactly
      that user is removed. Their hotels and bookings stay. */
  function DeleteUser(users: seq<User>, id: Id): (out: (Result<Id>, seq<User>))
    ensures IndexOf(users, UserKey, id).None? ==> out == (Err(NotFound), users)
    ensures var i := IndexOf(users, UserKey, id);
            i.Some? && users[i.value].role == Admin ==> out == (Err(BadRequest), users)
    ensures out.0.Ok? <==> var i := IndexOf(users, UserKey, id); i.Some? && users[i.value].role != Admin
    ensures out.0.Ok? ==> && out.0.value == id
                          && var i := IndexOf(users, UserKey, id).value;
                             out.1 == users[..i] + users[i + 1..]
    ensures out.0.Ok? && KeysUnique(users, UserKey) ==>
              && (forall u :: u in out.1 <==> u in users && u.id != id)
              && IndexOf(out.1, UserKey, id).None?
  {
    match IndexOf(users, UserKey, id)
    case None => (Err(NotFound), users)
    case Some(i) =>
      if users[i].role == Admin then (Err(BadRequest), users)
      else
        var rest := users[..i] + users[i + 1..];
        assert KeysUnique(users, UserKey) ==> forall u :: u in rest <==> u in users && u.id != id by {
          if KeysUnique(users, UserKey) {
            RemoveAtMembers(users, UserKey, i);
          }
        }
        (Ok(id), rest)
  }

  /** Once a user has been made an admin, no later block, role change or
      deletion of that user goes through: each answers 400. */
  lemma PromotionIsFinal(users: seq<User>, id: Id, role: string)
    requires KeysUnique(users, UserKey)
    ensures var (r, after) := UpdateUserRole(users, id, "admin");
            r.Ok? ==> && ToggleUserBlock(after, id) == (Err(BadRequest), after)
                      && UpdateUserRole(after, id, role) == (Err(BadRequest), after)
                      && DeleteUser(after, id) == (Err(BadRequest), after)
  {
    var (r, after) := UpdateUserRole(users, id, "admin");
    if r.Ok? {
      var i := IndexOf(users, UserKey, id).value;
      KeysUniqueUpdate(users, UserKey, i, after[i]);
      IndexOfUnique(after, UserKey, i);
    }
  }

  /** The statuses an admin may give a vendor. */
  predicate AssignableVendorStatus(status: string) {
    status == "approved" || status == "rejected" || status == "pending"
  }

  /** `updateVendorStatus`: 400 for a status other than approved, rejected
      or pending, decided before any lookup; 404 when the user is absent
      or is not a vendor; otherwise the vendor status is set. */
  function UpdateVendorStatus(users: seq<User>, id: Id, status: string): (out: (Result<User>, seq<User>))
    ensures !AssignableVendorStatus(status) ==> out == (Err(BadRequest), users)
    ensures var i := IndexOf(users, UserKey, id);
            AssignableVendorStatus(status) && (i.None? || users[i.value].role != Vendor) ==>
              out == (Err(NotFound), users)
    ensures var i := IndexOf(users, UserKey, id);
            AssignableVendorStatus(status) && i.Some? && users[i.value].role == Vendor && UserValid(users[i.value]) ==>
              && out.0.Ok? && VendorStatusName(out.0.value.vendorStatus) == status
              && out == (Ok(WithoutPassword(users[i.value].(vendorStatus := ParseVendorStatus(status).value))),
                         users[i.value := users[i.value].(vendorStatus := ParseVendorStatus(status).value)])
    ensures out.0.Ok? ==> out.0.value.vendorStatus != NoStatus
    ensures out.0.Err? ==> out.1 == users
  {
    if !AssignableVendorStatus(status) then (Err(BadRequest), users)
    else match IndexOf(users, UserKey, id)
      case None => (Err(NotFound), users)
      case Some(i) =>
        if users[i].role != Vendor then (Err(NotFound), users)
        else SaveUser(users, i, users[i].(vendorStatus := ParseVendorStatus(status).value))
  }

  /** Setting the same vendor status again answers the same and changes
      nothing more. */
  lemma UpdateVendorStatusIdempotent(users: seq<User>, id: Id, status: string)
    requires KeysUnique(users, UserKey)
    ensures var (r1, s1) := UpdateVendorStatus(users, id, status);
            var (r2, s2) := UpdateVendorStatus(s1, id, status);
            r1.Ok? ==> r2 == r1 && s2 == s1
  {
    var (r1, s1) := UpdateVendorStatus(users, id, status);
    if r1.Ok? {
      var i := IndexOf(users, UserKey, id).value;
      KeysUniqueUpdate(users, UserKey, i, s1[i]);
      IndexOfUnique(s1, UserKey, i);
    }
  }

  // ---------------------------------------------------------------------
  // toggleHotelStatus
  // ---------------------------------------------------------------------

  /** `toggleHotelStatus`: 404 when absent; otherwise `isActive` is negated
      and the hotel saved, which runs the hotel validators. */
  function ToggleHotelStatus(hotels: seq<Hotel>, id: Id): (out: (Result<Hotel>, seq<Hotel>))
    ensures IndexOf(hotels, HotelKey, id).None? ==> out == (Err(NotFound), hotels)
    ensures var i := IndexOf(hotels, HotelKey, id);
            i.Some? && HotelValid(hotels[i.value]) ==>
              var h := hotels[i.value].(isActive := !hotels[i.value].isActive);
              out == (Ok(h), hotels[i.value := h])
    ensures var i := IndexOf(hotels, HotelKey, id);
            i.Some? && !HotelValid(hotels[i.value]) ==> out == (Err(Invalid), hotels)
  {
    match IndexOf(hotels, HotelKey, id)
    case None => (Err(NotFound), hotels)
    case Some(i) =>
      var h := hotels[i].(isActive := !hotels[i].isActive);
      if HotelValid(h) then (Ok(h), hotels[i := h]) else (Err(Invalid), hotels)
  }

  /** Toggling a hotel twice gives back the hotels as they were. */
  lemma ToggleHotelStatusTwice(hotels: seq<Hotel>, id: Id)
    requires KeysUnique(hotels, HotelKey)
    ensures var (r1, s1) := ToggleHotelStatus(hotels, id);
            var (r2, s2) := ToggleHotelStatus(s1, id);
            r1.Ok? ==> r2.Ok? && r2.value.isActive == !r1.value.isActive && s2 == hotels
  {
    var (r1, s1) := ToggleHotelStatus(hotels, id);
    if r1.Ok? {
      var i := IndexOf(hotels, HotelKey, id).value;
      KeysUniqueUpdate(hotels, HotelKey, i, s1[i]);
      IndexOfUnique(s1, HotelKey, i);
      assert s1[i := s1[i].(isActive := !s1[i].isActive)] == hotels;
    }
  }

  // ---------------------------------------------------------------------
  // getAdminVendors
  // ---------------------------------------------------------------------

  /** A vendor with its number of hotels and of bookings at those hotels. */
  datatype VendorRow = VendorRow(vendor: User, hotelCount: nat, bookingCount: nat)

  function RowOf(v: User, hotels: seq<Hotel>, bookings: seq<Booking>): (r: VendorRow)
    ensures r.vendor == WithoutPassword(v)
    ensures r.vendor.id == v.id && r.vendor.role == v.role && r.vendor.createdAt == v.createdAt
    ensures r.vendor.password.None?
  {
    VendorRow(WithoutPassword(v), Count(hotels, OwnedBy(v.id)),
              Count(bookings, AtHotels(OwnedHotelIds(hotels, v.id))))
  }

  /** The vendors among the users, newest first. */
  function VendorsNewest(users: seq<User>): (vs: seq<User>)
    ensures |vs| == Count(users, IsVendor())
    ensures forall i :: 0 <= i < |vs| ==> vs[i] in users && vs[i].role == Vendor
    ensures multiset(vs) == multiset(Filter(users, IsVendor()))
    ensures NewestFirst(vs, UserTime)
  {
    var vendors := Filter(users, IsVendor());
    var vs := SortNewest(vendors, UserTime);
    assert |vs| == |multiset(vs)|;
    forall i | 0 <= i < |vs|
      ensures vs[i] in users && vs[i].role == Vendor
    {
      assert vs[i] in multiset(vendors);
    }
    vs
  }

  /** The vendor of each row. */
  function RowVendors(r: seq<VendorRow>): (vs: seq<User>)
    ensures |vs| == |r|
    ensures forall i :: 0 <= i < |r| ==> vs[i] == r[i].vendor
  {
    seq(|r|, i requires 0 <= i < |r| => r[i].vendor)
  }

  /** `getAdminVendors`: every vendor, newest first and without password,
      with its hotel and booking counts. */
  function AdminVendors(users: seq<User>, hotels: seq<Hotel>, bookings: seq<Booking>): (r: seq<VendorRow>)
    ensures |r| == Count(users, IsVendor())
    ensures forall i :: 0 <= i < |r| ==>
              && r[i].vendor.role == Vendor
              && r[i].vendor.password.None?
              && (exists u :: u in users && r[i].vendor == WithoutPassword(u))
              && r[i].hotelCount == Count(hotels, OwnedBy(r[i].vendor.id))
              && r[i].bookingCount == Count(bookings, AtHotels(OwnedHotelIds(hotels, r[i].vendor.id)))
    ensures forall i, j :: 0 <= i < j < |r| ==> r[i].vendor.createdAt >= r[j].vendor.createdAt
    ensures RowVendors(r) == Stripped(VendorsNewest(users))
  {
    var vs := VendorsNewest(users);
    var r := seq(|vs|, i requires 0 <= i < |vs| => RowOf(vs[i], hotels, bookings));
    forall i | 0 <= i < |r|
      ensures && r[i].vendor.role == Vendor
              && r[i].vendor.password.None?
              && (exists u :: u in users && r[i].vendor == WithoutPassword(u))
              && r[i].hotelCount == Count(hotels, OwnedBy(r[i].vendor.id))
              && r[i].bookingCount == Count(bookings, AtHotels(OwnedHotelIds(hotels, r[i].vendor.id)))
    {
      RowFacts(vs[i], users, hotels, bookings);
    }
    forall i, j | 0 <= i < j < |r| ensures r[i].vendor.createdAt >= r[j].vendor.createdAt {
      assert UserTime(vs[i]) >= UserTime(vs[j]);
    }
    assert RowVendors(r) == Stripped(vs);
    r
  }

  /** The row of a vendor among the users. */
  lemma RowFacts(v: User, users: seq<User>, hotels: seq<Hotel>, bookings: seq<Booking>)
    requires v in users && v.role == Vendor
    ensures var row := RowOf(v, hotels, bookings);
            && row.vendor.role == Vendor
            && row.vendor.password.None?
            && (exists u :: u in users && row.vendor == WithoutPassword(u))
            && row.hotelCount == Count(hotels, OwnedBy(row.vendor.id))
            && row.bookingCount == Count(bookings, AtHotels(OwnedHotelIds(hotels, row.vendor.id)))
  {
    assert RowOf(v, hotels, bookings).vendor == WithoutPassword(v);
  }

  /** What the vendor report says of a vendor is what that vendor's own
      statistics say: the same hotel count and the same booking count. */
  lemma VendorRowsMatchStats(users: seq<User>, hotels: seq<Hotel>, rooms: seq<Room>,
                             bookings: seq<Booking>, i: nat)
    requires i < |AdminVendors(users, hotels, bookings)|
    ensures var row := AdminVendors(users, hotels, bookings)[i];
            var stats := GetVendorStats(hotels, rooms, bookings, Some(row.vendor.id)).value;
            && row.hotelCount == stats.summary.totalHotels
            && row.bookingCount == stats.summary.totalBookings
  {
    var row := AdminVendors(users, hotels, bookings)[i];
    var mine := Filter(bookings, AtHotels(OwnedHotelIds(hotels, row.vendor.id)));
    assert |SortNewest(mine, BookingTime)| == |multiset(mine)|;
  }

  // ---------------------------------------------------------------------
  // getAdminBookings
  // ---------------------------------------------------------------------

  /** The query of the booking search: the status filter applies when a
      non-empty status is given, the creation-time range (both ends
      included) only when both ends are given. */
  function Matches(status: Option<string>, start: Option<int>, end: Option<int>): Booking -> bool {
    (b: Booking) => && (!Given(status) || StatusName(b.status) == status.value)
                    && (start.None? || end.None? || (start.value <= b.createdAt && b.createdAt <= end.value))
  }

  /** `getAdminBookings`: the matching bookings, newest first. */
  function AdminBookings(bookings: seq<Booking>, status: Option<string>, start: Option<int>, end: Option<int>)
    : (r: seq<Booking>)
    ensures forall b :: b in r <==> && b in bookings
                                    && (Given(status) ==> StatusName(b.status) == status.value)
                                    && (start.Some? && end.Some? ==> start.value <= b.createdAt <= end.value)
    ensures forall b :: b in r ==> multiset(r)[b] == multiset(bookings)[b]
    ensures NewestFirst(r, BookingTime)
  {
    var r := Listing(bookings, Matches(status, start, end));
    assert forall b :: b in r <==> multiset(r)[b] > 0;
    r
  }

  /** With no status and no complete range the search lists every booking. */
  lemma AdminBookingsUnfiltered(bookings: seq<Booking>, start: Option<int>, end: Option<int>)
    requires start.None? || end.None?
    ensures multiset(AdminBookings(bookings, None, start, end)) == multiset(bookings)
  {
    var r := AdminBookings(bookings, None, start, end);
    FilterAll(bookings, Matches(None, start, end));
  }

  /** A single date bound is ignored: the search with only a start (or
      only an end) answers as the search with neither. */
  lemma {:induction false} HalfRangeIgnored(bookings: seq<Booking>, status: Option<string>, bound: int)
    ensures AdminBookings(bookings, status, Some(bound), None) == AdminBookings(bookings, status, None, None)
    ensures AdminBookings(bookings, status, None, Some(bound)) == AdminBookings(bookings, status, None, None)
  {
    FilterExt(bookings, Matches(status, Some(bound), None), Matches(status, None, None));
    FilterExt(bookings, Matches(status, None, Some(bound)), Matches(status, None, None));
  }
}
