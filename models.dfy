/** The four persisted record shapes (Booking, Room, Hotel, User): their
    enums, required paths, defaults, length limits and trimming. A schema
    is modelled as a function from a partial document (every path optional)
    to the stored record, or to `Err(Invalid)` when a validator fails. */
module Models {
  import opened Common

  /** A string path passes `required` only when present and non-empty. */
  predicate Given(s: Option<string>) {
    s.Some? && s.value != ""
  }

  // ---------------------------------------------------------------------
  // Booking
  // ---------------------------------------------------------------------

  datatype BookingStatus = Confirmed | Cancelled | Completed

  function StatusName(s: BookingStatus): string {
    match s
    case Confirmed => "confirmed"
    case Cancelled => "cancelled"
    case Completed => "completed"
  }

  /** The `enum` validator of the status path. */
  function ParseStatus(t: string): (r: Option<BookingStatus>)
    ensures r.Some? ==> StatusName(r.value) == t
    ensures r.None? ==> forall s: BookingStatus :: StatusName(s) != t
  {
    if t == "confirmed" then Some(Confirmed)
    else if t == "cancelled" then Some(Cancelled)
    else if t == "completed" then Some(Completed)
    else None
  }

  datatype Booking = Booking(
    id: Id,
    userId: Id,
    roomId: Id,
    hotelId: Id,
    checkInDate: int,
    checkOutDate: int,
    totalPrice: int,
    status: BookingStatus,
    createdAt: int)

  function BookingKey(b: Booking): Id { b.id }
  function BookingTime(b: Booking): int { b.createdAt }

  /** A booking document before validation. Dates are epoch milliseconds. */
  datatype BookingFields = BookingFields(
    userId: Option<Id>,
    roomId: Option<Id>,
    hotelId: Option<Id>,
    checkInDate: Option<int>,
    checkOutDate: Option<int>,
    totalPrice: Option<int>,
    status: Option<string>,
    createdAt: Option<int>)

  predicate BookingRequired(f: BookingFields) {
    && f.userId.Some? && f.roomId.Some? && f.hotelId.Some?
    && f.checkInDate.Some? && f.checkOutDate.Some? && f.totalPrice.Some?
  }

  /** `Booking.create`: all six reference, date and price paths are
      required, the status must be one of the enum, it defaults to
      confirmed, and the creation time defaults to `now`. */
  function NewBooking(id: Id, f: BookingFields, now: int): (r: Result<Booking>)
    ensures r.Ok? <==> BookingRequired(f) && (f.status.None? || ParseStatus(f.status.value).Some?)
    ensures r.Err? ==> r.error == Invalid
    ensures r.Ok? ==> && r.value.id == id
                      && r.value.userId == f.userId.value
                      && r.value.roomId == f.roomId.value
                      && r.value.hotelId == f.hotelId.value
                      && r.value.checkInDate == f.checkInDate.value
                      && r.value.checkOutDate == f.checkOutDate.value
                      && r.value.totalPrice == f.totalPrice.value
                      && r.value.createdAt == f.createdAt.GetOr(now)
    ensures r.Ok? && f.status.None? ==> r.value.status == Confirmed
    ensures r.Ok? && f.status.Some? ==> StatusName(r.value.status) == f.status.value
  {
    if !BookingRequired(f) then Err(Invalid)
    else
      var status := if f.status.None? then Some(Confirmed) else ParseStatus(f.status.value);
      if status.None? then Err(Invalid)
      else Ok(Booking(id, f.userId.value, f.roomId.value, f.hotelId.value,
                      f.checkInDate.value, f.checkOutDate.value, f.totalPrice.value,
                      status.value, f.createdAt.GetOr(now)))
  }

  // ---------------------------------------------------------------------
  // Room
  // ---------------------------------------------------------------------

  datatype Room = Room(
    id: Id,
    hotelId: Id,
    roomType: string,
    pricePerNight: int,
    isAvailable: bool,
    count: int,
    createdAt: int)

  function RoomKey(r: Room): Id { r.id }

  datatype RoomFields = RoomFields(
    hotelId: Option<Id>,
    roomType: Option<string>,
    pricePerNight: Option<int>,
    isAvailable: Option<bool>,
    count: Option<int>,
    createdAt: Option<int>)

  /** `Room.create`: hotel, type and price are required; availability
      defaults to true and the inventory count to 1. */
  function NewRoom(id: Id, f: RoomFields, now: int): (r: Result<Room>)
    ensures r.Ok? <==> f.hotelId.Some? && Given(f.roomType) && f.pricePerNight.Some?
    ensures r.Err? ==> r.error == Invalid
    ensures r.Ok? ==> && r.value.id == id
                      && r.value.hotelId == f.hotelId.value
                      && r.value.roomType == f.roomType.value
                      && r.value.pricePerNight == f.pricePerNight.value
                      && r.value.createdAt == f.createdAt.GetOr(now)
    ensures r.Ok? ==> r.value.isAvailable == (f.isAvailable.None? || f.isAvailable.value)
    ensures r.Ok? ==> r.value.count == (if f.count.None? then 1 else f.count.value)
  {
    if f.hotelId.None? || !Given(f.roomType) || f.pricePerNight.None? then Err(Invalid)
    else Ok(Room(id, f.hotelId.value, f.roomType.value, f.pricePerNight.value,
                 f.isAvailable.GetOr(true), f.count.GetOr(1), f.createdAt.GetOr(now)))
  }

  // ---------------------------------------------------------------------
  // Hotel
  // ---------------------------------------------------------------------

  const HOTEL_NAME_MAX := 50
  const HOTEL_DESCRIPTION_MAX := 500

  datatype Hotel = Hotel(
    id: Id,
    vendorId: Id,
    name: string,
    location: string,
    description: string,
    amenities: seq<string>,
    imageUrls: seq<string>,
    isActive: bool,
    createdAt: int)

  function HotelKey(h: Hotel): Id { h.id }
  function HotelTime(h: Hotel): int { h.createdAt }

  /** The validators of the hotel schema: name, location and description
      are non-empty, the name has at most 50 characters and the
      description at most 500, counted in UTF-16 code units. */
  predicate HotelValid(h: Hotel) {
    && h.name != "" && Utf16Length(h.name) <= HOTEL_NAME_MAX
    && h.location != ""
    && h.description != "" && Utf16Length(h.description) <= HOTEL_DESCRIPTION_MAX
  }

  datatype HotelFields = HotelFields(
    vendorId: Option<Id>,
    name: Option<string>,
    location: Option<string>,
    description: Option<string>,
    amenities: Option<seq<string>>,
    imageUrls: Option<seq<string>>,
    isActive: Option<bool>,
    createdAt: Option<int>)

  /** `Hotel.create`: the name is trimmed before it is validated; the
      string lists default to empty and `isActive` to true. */
  function NewHotel(id: Id, f: HotelFields, now: int): (r: Result<Hotel>)
    ensures r.Ok? <==> && f.vendorId.Some? && f.name.Some? && f.location.Some? && f.description.Some?
                       && Trim(f.name.value) != "" && Utf16Length(Trim(f.name.value)) <= HOTEL_NAME_MAX
                       && f.location.value != ""
                       && f.description.value != "" && Utf16Length(f.description.value) <= HOTEL_DESCRIPTION_MAX
    ensures r.Err? ==> r.error == Invalid
    ensures r.Ok? ==> HotelValid(r.value) && IsTrimmed(r.value.name)
    ensures r.Ok? ==> && r.value.id == id
                      && r.value.vendorId == f.vendorId.value
                      && r.value.name == Trim(f.name.value)
                      && r.value.location == f.location.value
                      && r.value.description == f.description.value
                      && r.value.amenities == f.amenities.GetOr([])
                      && r.value.imageUrls == f.imageUrls.GetOr([])
                      && r.value.isActive == f.isActive.GetOr(true)
                      && r.value.createdAt == f.createdAt.GetOr(now)
  {
    if f.vendorId.None? || f.name.None? || f.location.None? || f.description.None? then Err(Invalid)
    else
      var h := Hotel(id, f.vendorId.value, Trim(f.name.value), f.location.value,
                     f.description.value, f.amenities.GetOr([]), f.imageUrls.GetOr([]),
                     f.isActive.GetOr(true), f.createdAt.GetOr(now));
      if HotelValid(h) then Ok(h) else Err(Invalid)
  }

  // ---------------------------------------------------------------------
  // User
  // ---------------------------------------------------------------------

  const PASSWORD_MIN := 6

  datatype Role = Customer | Vendor | Admin

  function RoleName(r: Role): string {
    match r
    case Customer => "customer"
    case Vendor => "vendor"
    case Admin => "admin"
  }

  function ParseRole(t: string): (r: Option<Role>)
    ensures r.Some? ==> RoleName(r.value) == t
    ensures r.None? ==> forall x: Role :: RoleName(x) != t
  {
    if t == "customer" then Some(Customer)
    else if t == "vendor" then Some(Vendor)
    else if t == "admin" then Some(Admin)
    else None
  }

  /** `NoStatus` is the enum value `none`. */
  datatype VendorStatus = Pending | Approved | Rejected | NoStatus

  function VendorStatusName(v: VendorStatus): string {
    match v
    case Pending => "pending"
    case Approved => "approved"
    case Rejected => "rejected"
    case NoStatus => "none"
  }

  function ParseVendorStatus(t: string): (r: Option<VendorStatus>)
    ensures r.Some? ==> VendorStatusName(r.value) == t
    ensures r.None? ==> forall x: VendorStatus :: VendorStatusName(x) != t
  {
    if t == "pending" then Some(Pending)
    else if t == "approved" then Some(Approved)
    else if t == "rejected" then Some(Rejected)
    else if t == "none" then Some(NoStatus)
    else None
  }

  /** A user record. `password` is `None` when the document was loaded
      without its password path, which is excluded from reads by default. */
  datatype User = User(
    id: Id,
    name: string,
    email: string,
    password: Option<string>,
    role: Role,
    wishlist: seq<Id>,
    isBlocked: bool,
    vendorStatus: VendorStatus,
    createdAt: int)

  function UserKey(u: User): Id { u.id }
  function UserTime(u: User): int { u.createdAt }

  /** The validators of the user schema that a stored user satisfies. */
  predicate UserValid(u: User) {
    && u.name != ""
    && u.email != "" && IsTrimmed(u.email)
    && (u.password.Some? ==> Utf16Length(u.password.value) >= PASSWORD_MIN)
  }

  /** `unique: true` on the email path: no two users share an email. */
  ghost predicate EmailsUnique(users: seq<User>) {
    forall i, j :: 0 <= i < j < |users| ==> users[i].email != users[j].email
  }

  datatype UserFields = UserFields(
    name: Option<string>,
    email: Option<string>,
    password: Option<string>,
    role: Option<string>,
    wishlist: Option<seq<Id>>,
    isBlocked: Option<bool>,
    vendorStatus: Option<string>,
    createdAt: Option<int>)

  /** `User.create` without the hashing hook: name, email (trimmed first)
      and a password of at least six characters are required; the role
      defaults to customer, the vendor status to none, the block flag to
      false and the wishlist to empty. */
  function NewUser(id: Id, f: UserFields, now: int): (r: Result<User>)
    ensures r.Ok? <==> && Given(f.name) && f.email.Some? && Trim(f.email.value) != ""
                       && f.password.Some? && Utf16Length(f.password.value) >= PASSWORD_MIN
                       && (f.role.None? || ParseRole(f.role.value).Some?)
                       && (f.vendorStatus.None? || ParseVendorStatus(f.vendorStatus.value).Some?)
    ensures r.Err? ==> r.error == Invalid
    ensures r.Ok? ==> UserValid(r.value)
    ensures r.Ok? ==> && r.value.id == id
                      && r.value.name == f.name.value
                      && r.value.email == Trim(f.email.value)
                      && r.value.password == f.password
                      && r.value.wishlist == f.wishlist.GetOr([])
                      && r.value.isBlocked == f.isBlocked.GetOr(false)
                      && r.value.createdAt == f.createdAt.GetOr(now)
    ensures r.Ok? ==> r.value.role == (if f.role.None? then Customer else ParseRole(f.role.value).value)
    ensures r.Ok? ==> r.value.vendorStatus == (if f.vendorStatus.None? then NoStatus
                                               else ParseVendorStatus(f.vendorStatus.value).value)
  {
    if !Given(f.name) || f.email.None? || Trim(f.email.value) == "" then Err(Invalid)
    else if f.password.None? || Utf16Length(f.password.value) < PASSWORD_MIN then Err(Invalid)
    else
      var role := if f.role.None? then Some(Customer) else ParseRole(f.role.value);
      var vendorStatus := if f.vendorStatus.None? then Some(NoStatus)
                          else ParseVendorStatus(f.vendorStatus.value);
      if role.None? || vendorStatus.None? then Err(Invalid)
      else Ok(User(id, f.name.value, Trim(f.email.value), f.password, role.value,
                   f.wishlist.GetOr([]), f.isBlocked.GetOr(false), vendorStatus.value,
                   f.createdAt.GetOr(now)))
  }

  /** The projection that leaves out the password path. */
  function WithoutPassword(u: User): (r: User)
    ensures r.password.None?
    ensures r.(password := u.password) == u
  {
    u.(password := None)
  }

  /** `matchPassword`: false when the password path was not loaded,
      otherwise the verdict of the hash comparison `compare`, which is a
      library call and is taken as a parameter. */
  function MatchPassword(u: User, entered: string, compare: (string, string) -> bool): (ok: bool)
    ensures u.password.None? ==> !ok
    ensures u.password.Some? ==> ok == compare(entered, u.password.value)
  {
    if u.password.None? then false else compare(entered, u.password.value)
  }
}
