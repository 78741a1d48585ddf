/** The vendor dashboard page (frontend/src/pages/VendorDashboard.jsx):
    the room inventory it keeps per hotel in `roomsByHotel`, the handlers
    that add, edit and delete rooms and change their availability, the
    comma lists of the hotel form, and the booking filter.

    The page keys `roomsByHotel` by the selected hotel id, which is the
    empty string until a hotel is chosen; that key is `None` here. Numbers
    arrive already parsed as integers. */
module VendorDashboard {
  import opened Common

  // ---------------------------------------------------------------------
  // Rooms as the page shows them
  // ---------------------------------------------------------------------

  /** A room's id on the page: the stored id, the `<hotel>-room-<index>`
      placeholder of normalisation, or the `<hotel>-<Date.now()>` id of a
      room added on the page. */
  datatype RoomRef = Stored(id: Id) | Generated(hotel: Id, index: nat) | Added(hotel: Id, time: int)

  datatype ViewRoom = ViewRoom(
    id: RoomRef,
    roomType: string,
    price: int,
    capacity: int,
    quantity: int,
    available: int)

  /** A room as the statistics response delivers it. Each field stands
      for the value the page picks among the alternative field names it
      tries: for the `??` chains of `quantity` and `available` the first
      one that is set (`room.quantity ?? room.totalRooms ?? room.total`),
      for the `||` chains of the id, type and capacity the first truthy
      one (`room.type || room.roomType`, so an empty `type` gives way to
      `roomType`). */
  datatype RawRoom = RawRoom(
    id: Option<Id>,
    quantity: Option<int>,
    available: Option<int>,
    roomType: Option<string>,
    price: Option<int>,
    capacity: Option<int>)

  /** A hotel of the statistics response: its id and, maybe, its rooms. */
  datatype RawHotel = RawHotel(id: Id, rooms: Option<seq<RawRoom>>)

  /** The availability bounds the page keeps: never negative, and at most
      the quantity whenever the quantity is positive. */
  predicate InBounds(r: ViewRoom) {
    r.available >= 0 && (r.quantity > 0 ==> r.available <= r.quantity)
  }

  /** The "Booked" column: `max(quantity - available, 0)`. */
  function Booked(r: ViewRoom): int {
    Max(r.quantity - r.available, 0)
  }

  /** Between the bounds, booked and available rooms make up the quantity. */
  lemma BookedBounds(r: ViewRoom)
    requires InBounds(r) && r.quantity > 0
    ensures 0 <= Booked(r) <= r.quantity
    ensures Booked(r) + r.available == r.quantity
  {
  }

  /** The normalisation of one room (the `map` callback of the reducer):
      the quantity defaults to 0 and the availability to the quantity;
      the availability is clamped into [0, quantity], or only below by 0
      when the quantity is 0; an empty or missing type reads `Standard`,
      a missing price 0 and a missing or zero capacity 1. */
  function Normalise(hotel: Id, index: nat, raw: RawRoom): (r: ViewRoom)
    ensures InBounds(r)
    ensures r.quantity == raw.quantity.GetOr(0)
    ensures var a := raw.available.GetOr(r.quantity);
            && (r.quantity > 0 && 0 <= a <= r.quantity ==> r.available == a)
            && (r.quantity > 0 && a > r.quantity ==> r.available == r.quantity)
            && (r.quantity > 0 && a < 0 ==> r.available == 0)
            && (r.quantity == 0 ==> r.available == Max(0, a))
            && (r.quantity < 0 ==> r.available == 0)
    ensures r.id == if raw.id.Some? then Stored(raw.id.value) else Generated(hotel, index)
    ensures r.roomType != ""
    ensures r.capacity != 0
  {
    var quantity := raw.quantity.GetOr(0);
    var available := raw.available.GetOr(quantity);
    var safe := Max(0, Min(available, if quantity == 0 then available else quantity));
    ViewRoom(
      if raw.id.Some? then Stored(raw.id.value) else Generated(hotel, index),
      if raw.roomType.Some? && raw.roomType.value != "" then raw.roomType.value else "Standard",
      raw.price.GetOr(0),
      if raw.capacity.Some? && raw.capacity.value != 0 then raw.capacity.value else 1,
      quantity,
      safe)
  }

  /** The normalised rooms of one hotel, in order (`hotel.rooms || []`). */
  function HotelViewRooms(h: RawHotel): (r: seq<ViewRoom>)
    ensures |r| == |h.rooms.GetOr([])|
    ensures forall i :: 0 <= i < |r| ==> r[i] == Normalise(h.id, i, h.rooms.GetOr([])[i]) && InBounds(r[i])
  {
    var raw := h.rooms.GetOr([]);
    seq(|raw|, i requires 0 <= i < |raw| => Normalise(h.id, i, raw[i]))
  }

  /** Every room of every hotel of `m` is within the bounds. */
  predicate AllInBounds(m: map<Option<Id>, seq<ViewRoom>>) {
    forall k :: k in m ==> forall i :: 0 <= i < |m[k]| ==> InBounds(m[k][i])
  }

  /** The reducer over the hotels of the statistics: each hotel's key is
      set to its normalised rooms, so a later hotel with the same id
      overwrites an earlier one. */
  function Collect(acc: map<Option<Id>, seq<ViewRoom>>, hs: seq<RawHotel>): map<Option<Id>, seq<ViewRoom>>
    decreases |hs|
  {
    if hs == [] then acc
    else Collect(acc[Some(hs[0].id) := HotelViewRooms(hs[0])], hs[1..])
  }

  /** The keys of the reducer's result: those it started with and the
      ids of the hotels. */
  lemma {:induction false} CollectKeys(acc: map<Option<Id>, seq<ViewRoom>>, hs: seq<RawHotel>)
    ensures forall k :: k in Collect(acc, hs) <==> k in acc || exists i :: 0 <= i < |hs| && k == Some(hs[i].id)
    decreases |hs|
  {
    if hs != [] {
      CollectKeys(acc[Some(hs[0].id) := HotelViewRooms(hs[0])], hs[1..]);
      assert forall i :: 1 <= i < |hs| ==> hs[i] == hs[1..][i - 1];
    }
  }

  /** A key no hotel has keeps its value. */
  lemma {:induction false} CollectUntouched(acc: map<Option<Id>, seq<ViewRoom>>, hs: seq<RawHotel>, k: Option<Id>)
    requires k in acc && forall i :: 0 <= i < |hs| ==> k != Some(hs[i].id)
    ensures k in Collect(acc, hs) && Collect(acc, hs)[k] == acc[k]
    decreases |hs|
  {
    if hs != [] {
      var next := acc[Some(hs[0].id) := HotelViewRooms(hs[0])];
      assert forall i :: 0 <= i < |hs[1..]| ==> hs[1..][i] == hs[i + 1];
      CollectUntouched(next, hs[1..], k);
    }
  }

  /** The last hotel with a given id decides that id's rooms. */
  lemma {:induction false} CollectLast(acc: map<Option<Id>, seq<ViewRoom>>, hs: seq<RawHotel>, i: nat)
    requires i < |hs| && forall j :: i < j < |hs| ==> hs[j].id != hs[i].id
    ensures Some(hs[i].id) in Collect(acc, hs) && Collect(acc, hs)[Some(hs[i].id)] == HotelViewRooms(hs[i])
    decreases |hs|
  {
    var next := acc[Some(hs[0].id) := HotelViewRooms(hs[0])];
    assert forall j :: 0 <= j < |hs[1..]| ==> hs[1..][j] == hs[j + 1];
    if i == 0 {
      CollectUntouched(next, hs[1..], Some(hs[0].id));
    } else {
      CollectLast(next, hs[1..], i - 1);
    }
  }

  /** Normalised rooms stay within the bounds. */
  lemma {:induction false} CollectInBounds(acc: map<Option<Id>, seq<ViewRoom>>, hs: seq<RawHotel>)
    requires AllInBounds(acc)
    ensures AllInBounds(Collect(acc, hs))
    decreases |hs|
  {
    if hs != [] {
      CollectInBounds(acc[Some(hs[0].id) := HotelViewRooms(hs[0])], hs[1..]);
    }
  }

  /** `roomsByHotel` as the reducer first builds it. */
  function NormaliseAll(hs: seq<RawHotel>): (m: map<Option<Id>, seq<ViewRoom>>)
    ensures forall k :: k in m <==> exists i :: 0 <= i < |hs| && k == Some(hs[i].id)
    ensures None !in m
    ensures AllInBounds(m)
  {
    CollectKeys(map[], hs);
    CollectInBounds(map[], hs);
    Collect(map[], hs)
  }

  /** Each hotel's rooms are those of the last hotel with its id. */
  lemma NormaliseAllLast(hs: seq<RawHotel>, i: nat)
    requires i < |hs| && forall j :: i < j < |hs| ==> hs[j].id != hs[i].id
    ensures Some(hs[i].id) in NormaliseAll(hs) && NormaliseAll(hs)[Some(hs[i].id)] == HotelViewRooms(hs[i])
  {
    CollectLast(map[], hs, i);
  }

  /** `prev[selectedHotelId] || []`. */
  function RoomsOf(m: map<Option<Id>, seq<ViewRoom>>, k: Option<Id>): seq<ViewRoom> {
    if k in m then m[k] else []
  }

  // ---------------------------------------------------------------------
  // The room form and the updaters of roomsByHotel
  // ---------------------------------------------------------------------

  /** The room form; `available` is `None` when that input is empty. */
  datatype RoomForm = RoomForm(roomType: string, price: int, capacity: int, quantity: int, available: Option<int>)

  /** The checks `handleRoomSubmit` makes before it writes anything. */
  predicate FormValid(f: RoomForm) {
    f.roomType != "" && f.price > 0 && f.capacity > 0 && f.quantity > 0
  }

  /** The availability a submitted form stores: the input, or the quantity
      when the input is empty, clamped into [0, quantity]. */
  function Clamped(f: RoomForm): (a: int)
    ensures a >= 0
    ensures f.quantity >= 0 ==> a <= f.quantity
    ensures f.quantity >= 0 && f.available.None? ==> a == f.quantity
    ensures f.available.Some? && 0 <= f.available.value <= f.quantity ==> a == f.available.value
    ensures f.quantity >= 0 && f.available.Some? && f.available.value > f.quantity ==> a == f.quantity
    ensures f.available.Some? && f.available.value < 0 ==> a == 0
  {
    Max(0, Min(f.available.GetOr(f.quantity), f.quantity))
  }

  /** A room overwritten by the form; its id stays. */
  function Edited(r: ViewRoom, f: RoomForm): ViewRoom {
    r.(roomType := f.roomType, price := f.price, capacity := f.capacity,
       quantity := f.quantity, available := Clamped(f))
  }

  /** The room a submitted form adds to hotel `hotel` at time `now`. */
  function NewViewRoom(hotel: Id, f: RoomForm, now: int): ViewRoom {
    ViewRoom(Added(hotel, now), f.roomType, f.price, f.capacity, f.quantity, Clamped(f))
  }

  function EditAll(rooms: seq<ViewRoom>, id: RoomRef, f: RoomForm): (r: seq<ViewRoom>)
    ensures |r| == |rooms|
    ensures forall i :: 0 <= i < |rooms| ==> r[i] == if rooms[i].id == id then Edited(rooms[i], f) else rooms[i]
  {
    seq(|rooms|, i requires 0 <= i < |rooms| => if rooms[i].id == id then Edited(rooms[i], f) else rooms[i])
  }

  /** The `setRoomsByHotel` updater of `handleRoomSubmit` for hotel `sel`:
      when a room is being edited every room of `sel` with its id takes
      the form's values, otherwise the new room is appended; other hotels
      keep their lists. A valid form keeps every room within bounds. */
  function SubmitUpdate(prev: map<Option<Id>, seq<ViewRoom>>, sel: Id, editing: Option<RoomRef>,
                        f: RoomForm, now: int): (next: map<Option<Id>, seq<ViewRoom>>)
    ensures forall k :: k in next <==> k in prev || k == Some(sel)
    ensures forall k :: k in prev && k != Some(sel) ==> next[k] == prev[k]
    ensures editing.None? ==> next[Some(sel)] == RoomsOf(prev, Some(sel)) + [NewViewRoom(sel, f, now)]
    ensures editing.Some? ==>
              && |next[Some(sel)]| == |RoomsOf(prev, Some(sel))|
              && forall i :: 0 <= i < |next[Some(sel)]| ==>
                   var old_ := RoomsOf(prev, Some(sel))[i];
                   next[Some(sel)][i] == if old_.id == editing.value then Edited(old_, f) else old_
    ensures FormValid(f) && AllInBounds(prev) ==> AllInBounds(next)
  {
    var current := RoomsOf(prev, Some(sel));
    if editing.Some? then prev[Some(sel) := EditAll(current, editing.value, f)]
    else prev[Some(sel) := current + [NewViewRoom(sel, f, now)]]
  }

  function NotRef(id: RoomRef): ViewRoom -> bool {
    (r: ViewRoom) => r.id != id
  }

  /** The updater of `handleDeleteRoom`: every room of hotel `sel` with that
      id goes; nothing else changes. */
  function DeleteUpdate(prev: map<Option<Id>, seq<ViewRoom>>, sel: Option<Id>, id: RoomRef)
    : (next: map<Option<Id>, seq<ViewRoom>>)
    ensures forall k :: k in next <==> k in prev || k == sel
    ensures forall k :: k in prev && k != sel ==> next[k] == prev[k]
    ensures forall r: ViewRoom :: r in next[sel] <==> r in RoomsOf(prev, sel) && r.id != id
    ensures forall r: ViewRoom :: multiset(next[sel])[r] == if r.id != id then multiset(RoomsOf(prev, sel))[r] else 0
    ensures next[sel] == Filter(RoomsOf(prev, sel), NotRef(id))
    ensures AllInBounds(prev) ==> AllInBounds(next)
  {
    var current := RoomsOf(prev, sel);
    var kept := Filter(current, NotRef(id));
    forall r: ViewRoom ensures multiset(kept)[r] == if r.id != id then multiset(current)[r] else 0 {
      FilterMultiplicity(current, NotRef(id), r);
    }
    assert forall r: ViewRoom :: r in kept <==> multiset(kept)[r] > 0;
    assert AllInBounds(prev) ==> forall i :: 0 <= i < |kept| ==> InBounds(kept[i]);
    prev[sel := kept]
  }

  /** The updater of `handleUpdateAvailability`: every room of hotel `sel`
      with that id gets the new availability. */
  function AvailabilityUpdate(prev: map<Option<Id>, seq<ViewRoom>>, sel: Option<Id>, id: RoomRef, value: int)
    : (next: map<Option<Id>, seq<ViewRoom>>)
    ensures forall k :: k in next <==> k in prev || k == sel
    ensures forall k :: k in prev && k != sel ==> next[k] == prev[k]
    ensures |next[sel]| == |RoomsOf(prev, sel)|
    ensures forall i :: 0 <= i < |next[sel]| ==>
              var old_ := RoomsOf(prev, sel)[i];
              next[sel][i] == if old_.id == id then old_.(available := value) else old_
  {
    var current := RoomsOf(prev, sel);
    prev[sel := seq(|current|, i requires 0 <= i < |current| =>
                      if current[i].id == id then current[i].(available := value) else current[i])]
  }

  /** No two rooms of the list share an id. */
  predicate RefsUnique(rooms: seq<ViewRoom>) {
    forall i, j :: 0 <= i < j < |rooms| ==> rooms[i].id != rooms[j].id
  }

  /** The bound check of `handleUpdateAvailability` is made against the
      room that was clicked; when ids are unique in the list that is the
      only room written, so every room stays within bounds. */
  lemma AvailabilityKeepsBounds(prev: map<Option<Id>, seq<ViewRoom>>, sel: Option<Id>, room: ViewRoom, value: int)
    requires AllInBounds(prev)
    requires room in RoomsOf(prev, sel) && RefsUnique(RoomsOf(prev, sel))
    requires 0 <= value <= room.quantity
    ensures AllInBounds(AvailabilityUpdate(prev, sel, room.id, value))
  {
    var current := RoomsOf(prev, sel);
    var next := AvailabilityUpdate(prev, sel, room.id, value);
    var p :| 0 <= p < |current| && current[p] == room;
    forall i | 0 <= i < |next[sel]|
      ensures InBounds(next[sel][i])
    {
      if current[i].id == room.id {
        assert i == p;
      } else {
        assert current[i] in RoomsOf(prev, sel);
        assert sel in prev;
      }
    }
  }

  /** Editing a room and submitting the form it was loaded into without
      changing anything leaves the room list as it was, when the room's
      values pass the form checks and its id is unique. */
  lemma EditSubmitUnchanged(prev: map<Option<Id>, seq<ViewRoom>>, sel: Id, room: ViewRoom, now: int)
    requires room in RoomsOf(prev, Some(sel)) && RefsUnique(RoomsOf(prev, Some(sel)))
    requires InBounds(room) && FormValid(FormOf(room))
    ensures SubmitUpdate(prev, sel, Some(room.id), FormOf(room), now)[Some(sel)] == RoomsOf(prev, Some(sel))
  {
    var current := RoomsOf(prev, Some(sel));
    var next := SubmitUpdate(prev, sel, Some(room.id), FormOf(room), now)[Some(sel)];
    var p :| 0 <= p < |current| && current[p] == room;
    forall i | 0 <= i < |current|
      ensures next[i] == current[i]
    {
      if current[i].id == room.id {
        assert i == p;
      }
    }
  }

  /** `handleEditRoom` loads the room into the form; each value is printed
      with `String` and read back with `Number`, which gives it back. */
  function FormOf(room: ViewRoom): (f: RoomForm)
    ensures f.available == Some(room.available)
    ensures Edited(room, f) == room.(available := Clamped(f))
  {
    RoomForm(room.roomType, room.price, room.capacity, room.quantity, Some(room.available))
  }

  // ---------------------------------------------------------------------
  // The page state
  // ---------------------------------------------------------------------

  class Dashboard {
    var selectedHotelId: Option<Id>
    var roomsByHotel: map<Option<Id>, seq<ViewRoom>>
    var editingRoomId: Option<RoomRef>

    constructor ()
      ensures selectedHotelId == None && roomsByHotel == map[] && editingRoomId == None
    {
      selectedHotelId := None;
      roomsByHotel := map[];
      editingRoomId := None;
    }

    /** The effect that runs when the statistics arrive: with at least one
        hotel, the first is selected if none is, and the room lists are
        built once, while `roomsByHotel` is still empty. */
    method SyncFromStats(hotels: seq<RawHotel>)
      modifies this
      ensures hotels == [] ==> selectedHotelId == old(selectedHotelId) && roomsByHotel == old(roomsByHotel)
      ensures hotels != [] ==> selectedHotelId == if old(selectedHotelId).None? then Some(hotels[0].id)
                                                  else old(selectedHotelId)
      ensures roomsByHotel == if hotels != [] && |old(roomsByHotel)| == 0 then NormaliseAll(hotels)
                              else old(roomsByHotel)
      ensures editingRoomId == old(editingRoomId)
      ensures AllInBounds(old(roomsByHotel)) ==> AllInBounds(roomsByHotel)
    {
      if hotels != [] {
        if selectedHotelId.None? {
          selectedHotelId := Some(hotels[0].id);
        }
        if |roomsByHotel| == 0 {
          var built := NormaliseAll(hotels);
          assert AllInBounds(built);
          roomsByHotel := built;
        }
      }
    }

    /** The hotel selector: a new selection also clears the room form. */
    method SelectHotel(id: Id)
      modifies this
      ensures selectedHotelId == Some(id) && editingRoomId == None && roomsByHotel == old(roomsByHotel)
    {
      selectedHotelId := Some(id);
      editingRoomId := None;
    }

    /** `handleRoomSubmit`: nothing happens without a selected hotel or
        with a form that fails the checks; otherwise the selected hotel's
        list is updated and the form is reset. */
    method SubmitRoom(f: RoomForm, now: int)
      modifies this
      ensures old(selectedHotelId).None? || !FormValid(f) ==>
                && selectedHotelId == old(selectedHotelId)
                && roomsByHotel == old(roomsByHotel)
                && editingRoomId == old(editingRoomId)
      ensures old(selectedHotelId).Some? && FormValid(f) ==>
                && roomsByHotel == SubmitUpdate(old(roomsByHotel), old(selectedHotelId).value,
                                                old(editingRoomId), f, now)
                && editingRoomId == None
      ensures selectedHotelId == old(selectedHotelId)
      ensures old(AllInBounds(roomsByHotel)) ==> AllInBounds(roomsByHotel)
    {
      if selectedHotelId.None? {
        return;
      }
      var sel := selectedHotelId.value;
      if !FormValid(f) {
        return;
      }
      var current := RoomsOf(roomsByHotel, Some(sel));
      if editingRoomId.Some? {
        roomsByHotel := roomsByHotel[Some(sel) := EditAll(current, editingRoomId.value, f)];
      } else {
        roomsByHotel := roomsByHotel[Some(sel) := current + [NewViewRoom(sel, f, now)]];
      }
      editingRoomId := None;
    }

    /** `handleEditRoom`: the room's values go into the form and the room
        becomes the one being edited. */
    method EditRoom(room: ViewRoom) returns (f: RoomForm)
      modifies this
      ensures f == FormOf(room)
      ensures editingRoomId == Some(room.id)
      ensures selectedHotelId == old(selectedHotelId) && roomsByHotel == old(roomsByHotel)
    {
      f := RoomForm(room.roomType, room.price, room.capacity, room.quantity, Some(room.available));
      editingRoomId := Some(room.id);
    }

    /** `handleDeleteRoom`: unless the confirmation is declined, the rooms
        with that id leave the selected hotel's list, and an edit of that
        room is abandoned. */
    method DeleteRoom(id: RoomRef, confirmed: bool)
      modifies this
      ensures !confirmed ==> roomsByHotel == old(roomsByHotel) && editingRoomId == old(editingRoomId)
      ensures confirmed ==> roomsByHotel == DeleteUpdate(old(roomsByHotel), old(selectedHotelId), id)
      ensures confirmed ==> editingRoomId == if old(editingRoomId) == Some(id) then None else old(editingRoomId)
      ensures selectedHotelId == old(selectedHotelId)
      ensures old(AllInBounds(roomsByHotel)) ==> AllInBounds(roomsByHotel)
    {
      if !confirmed {
        return;
      }
      roomsByHotel := DeleteUpdate(roomsByHotel, selectedHotelId, id);
      if editingRoomId == Some(id) {
        editingRoomId := None;
      }
    }

    /** `handleUpdateAvailability`: a cancelled prompt or a value outside
        [0, quantity] of the clicked room changes nothing; otherwise the
        value becomes the availability of the rooms with that id. */
    method UpdateAvailability(room: ViewRoom, input: Option<int>)
      modifies this
      ensures input.None? || input.value < 0 || input.value > room.quantity ==>
                roomsByHotel == old(roomsByHotel)
      ensures input.Some? && 0 <= input.value <= room.quantity ==>
                roomsByHotel == AvailabilityUpdate(old(roomsByHotel), old(selectedHotelId), room.id, input.value)
      ensures selectedHotelId == old(selectedHotelId) && editingRoomId == old(editingRoomId)
      ensures && old(AllInBounds(roomsByHotel))
              && room in old(RoomsOf(roomsByHotel, selectedHotelId))
              && old(RefsUnique(RoomsOf(roomsByHotel, selectedHotelId)))
              ==> AllInBounds(roomsByHotel)
    {
      if input.None? {
        return;
      }
      var parsed := input.value;
      if parsed < 0 || parsed > room.quantity {
        return;
      }
      if AllInBounds(roomsByHotel) && room in RoomsOf(roomsByHotel, selectedHotelId)
         && RefsUnique(RoomsOf(roomsByHotel, selectedHotelId)) {
        AvailabilityKeepsBounds(roomsByHotel, selectedHotelId, room, parsed);
      }
      roomsByHotel := AvailabilityUpdate(roomsByHotel, selectedHotelId, room.id, parsed);
    }
  }

  // ---------------------------------------------------------------------
  // Comma lists of the hotel form
  // ---------------------------------------------------------------------

  /** `s.split(sep)`: the pieces between the separators; an empty string
      gives one empty piece. */
  function Split(s: string, sep: char): (r: seq<string>)
    ensures |r| >= 1
    ensures forall i :: 0 <= i < |r| ==> sep !in r[i]
  {
    if s == [] then [""]
    else
      var rest := Split(s[1..], sep);
      if s[0] == sep then [""] + rest
      else [[s[0]] + rest[0]] + rest[1..]
  }

  /** `xs.join(sep)`. */
  function Join(xs: seq<string>, sep: string): string {
    if xs == [] then ""
    else if |xs| == 1 then xs[0]
    else xs[0] + sep + Join(xs[1..], sep)
  }

  /** Joining the pieces with the separator gives back the string. */
  lemma {:induction false} JoinSplit(s: string, sep: char)
    ensures Join(Split(s, sep), [sep]) == s
  {
    if s != [] {
      var rest := Split(s[1..], sep);
      JoinSplit(s[1..], sep);
      if s[0] == sep {
        assert ([""] + rest)[1..] == rest;
        assert s == [sep] + s[1..];
      } else {
        var r := [[s[0]] + rest[0]] + rest[1..];
        assert r[1..] == rest[1..];
        assert s == [s[0]] + s[1..];
      }
    }
  }

  predicate NonEmpty(s: string) { s != "" }

  function TrimAll(xs: seq<string>): (r: seq<string>)
    ensures |r| == |xs|
    ensures forall i :: 0 <= i < |xs| ==> r[i] == Trim(xs[i])
  {
    seq(|xs|, i requires 0 <= i < |xs| => Trim(xs[i]))
  }

  /** `s.split(',').map(item => item.trim()).filter(i => i)`: the amenity
      and image lists of the hotel form. */
  function SplitList(s: string): (r: seq<string>)
    ensures forall i :: 0 <= i < |r| ==> r[i] != "" && IsTrimmed(r[i]) && ',' !in r[i]
  {
    var pieces := Split(s, ',');
    var trimmed := TrimAll(pieces);
    var r := Filter(trimmed, NonEmpty);
    forall i | 0 <= i < |r|
      ensures ',' !in r[i]
    {
      var k :| 0 <= k < |trimmed| && trimmed[k] == r[i];
      TrimKeepsOut(pieces[k], ',');
    }
    r
  }

  /** Trimming only removes characters. */
  lemma TrimKeepsOut(s: string, c: char)
    requires c !in s
    ensures c !in Trim(s)
  {
    var t := TrimStart(s);
    DropKeepsOut(s, |s| - |t|, c);
    TakeKeepsOut(t, |TrimEnd(t)|, c);
  }

  lemma DropKeepsOut(s: string, a: nat, c: char)
    requires a <= |s| && c !in s
    ensures c !in s[a..]
  {
  }

  lemma TakeKeepsOut(s: string, a: nat, c: char)
    requires a <= |s| && c !in s
    ensures c !in s[..a]
  {
  }

  /** A list the page itself produced, made of trimmed non-empty entries
      without commas. */
  predicate CleanList(xs: seq<string>) {
    forall i :: 0 <= i < |xs| ==> xs[i] != "" && IsTrimmed(xs[i]) && ',' !in xs[i]
  }

  /** Splitting a comma-free string gives that string. */
  lemma {:induction false} SplitWithout(s: string, sep: char)
    requires sep !in s
    ensures Split(s, sep) == [s]
  {
    if s != [] {
      SplitWithout(s[1..], sep);
      assert s[0] != sep;
      assert [s[0]] + s[1..] == s;
    }
  }

  /** A separator after a separator-free prefix ends the first piece. */
  lemma {:induction false} SplitAt(a: string, b: string, sep: char)
    requires sep !in a
    ensures Split(a + [sep] + b, sep) == [a] + Split(b, sep)
  {
    if a == [] {
      assert a + [sep] + b == [sep] + b;
      assert ([sep] + b)[1..] == b;
    } else {
      assert (a + [sep] + b)[1..] == a[1..] + [sep] + b;
      SplitAt(a[1..], b, sep);
      assert [a[0]] + a[1..] == a;
    }
  }

  /** Every entry behind a space. */
  function Prefixed(xs: seq<string>): (r: seq<string>)
    ensures |r| == |xs|
    ensures forall i :: 0 <= i < |xs| ==> r[i] == " " + xs[i]
  {
    if xs == [] then [] else [" " + xs[0]] + Prefixed(xs[1..])
  }

  /** The first entry, then every other entry behind its `", "` space. */
  function Spaced(xs: seq<string>): (r: seq<string>)
    requires xs != []
  {
    [xs[0]] + Prefixed(xs[1..])
  }

  lemma {:induction false} SplitJoined(xs: seq<string>)
    requires xs != [] && forall i :: 0 <= i < |xs| ==> ',' !in xs[i]
    ensures Split(Join(xs, ", "), ',') == Spaced(xs)
    decreases |xs|
  {
    if |xs| == 1 {
      SplitWithout(xs[0], ',');
      assert Prefixed(xs[1..]) == [];
    } else {
      var a, tail := xs[0], Join(xs[1..], ", ");
      assert Join(xs, ", ") == a + [','] + (" " + tail) by {
        JoinCons(xs, ", ");
      }
      assert Split(a + [','] + (" " + tail), ',') == [a] + Split(" " + tail, ',') by {
        assert ',' !in a;
        SplitAt(a, " " + tail, ',');
      }
      assert Split(" " + tail, ',') == Prefixed(xs[1..]) by {
        SplitJoined(xs[1..]);
        SplitSpace(tail, ',');
        assert xs[1..][1..] == xs[2..];
      }
    }
  }

  /** A list of two or more entries joins as its head, the separator and
      the join of the rest. */
  lemma JoinCons(xs: seq<string>, sep: string)
    requires |xs| >= 2
    ensures Join(xs, sep) == xs[0] + sep + Join(xs[1..], sep)
  {
  }

  /** A leading character other than the separator goes to the first piece. */
  lemma SplitSpace(t: string, sep: char)
    requires sep != ' '
    ensures Split(" " + t, sep) == [" " + Split(t, sep)[0]] + Split(t, sep)[1..]
  {
    assert (" " + t)[1..] == t;
  }

  /** Trimming a space put in front of a trimmed string removes just it. */
  lemma TrimSpaced(x: string)
    requires IsTrimmed(x)
    ensures Trim(" " + x) == x
  {
    assert AllSpace(" ") && AllSpace("");
    TrimEdges(" ", x, "");
    assert " " + x + "" == " " + x;
  }

  /** What the edit form shows of a list (`join(', ')`) splits back into
      the same list when the form is submitted unchanged. */
  lemma SplitListJoin(xs: seq<string>)
    requires CleanList(xs)
    ensures SplitList(Join(xs, ", ")) == xs
  {
    if xs == [] {
      assert Join(xs, ", ") == "";
      SplitListEmpty();
    } else {
      SplitJoined(xs);
      TrimSpacedAll(xs);
      FilterAll(xs, NonEmpty);
    }
  }

  /** Trimming the pieces of a join gives back the entries. */
  lemma TrimSpacedAll(xs: seq<string>)
    requires xs != [] && CleanList(xs)
    ensures TrimAll(Spaced(xs)) == xs
  {
    var t := TrimAll(Spaced(xs));
    forall i | 0 <= i < |xs|
      ensures t[i] == xs[i]
    {
      TrimSpacedAt(xs, i);
    }
  }

  lemma TrimSpacedAt(xs: seq<string>, i: nat)
    requires i < |xs| && CleanList(xs)
    ensures Trim(Spaced(xs)[i]) == xs[i]
  {
    if i == 0 {
      assert Spaced(xs)[0] == xs[0];
    } else {
      assert Spaced(xs)[i] == " " + xs[i];
      TrimSpaced(xs[i]);
    }
  }

  /** The hotel form; a comma field or the active flag is `None` while the
      form object has no such key, as in the state the page starts with. */
  datatype HotelForm = HotelForm(name: string, location: string, description: string,
                                 amenities: Option<string>, images: Option<string>,
                                 isActive: Option<bool>)

  /** The payload `handleFormSubmit` sends: the form spread, with the two
      comma fields replaced by their lists. */
  datatype HotelPayload = HotelPayload(name: string, location: string, description: string,
                                       amenities: seq<string>, images: seq<string>,
                                       isActive: Option<bool>)

  /** The form state the page starts with: the three text fields, empty,
      and no comma fields. */
  function InitialHotelForm(): (f: HotelForm)
    ensures f.amenities.None? && f.images.None? && f.isActive.None?
  {
    HotelForm("", "", "", None, None, None)
  }

  /** The payload as `handleFormSubmit` builds it: splitting a missing
      comma field throws, the handler's `catch` reports the failure, and
      nothing is sent. */
  function PayloadAsWritten(f: HotelForm): (r: Option<HotelPayload>)
    ensures r.Some? <==> f.amenities.Some? && f.images.Some?
    ensures r.Some? ==> r.value.amenities == SplitList(f.amenities.value)
                        && r.value.images == SplitList(f.images.value)
                        && r.value.isActive == f.isActive
  {
    if f.amenities.None? || f.images.None? then None
    else Some(HotelPayload(f.name, f.location, f.description,
                           SplitList(f.amenities.value), SplitList(f.images.value), f.isActive))
  }

  /** A first hotel typed into the form the page starts with, leaving the
      two comma fields alone, is never sent. */
  lemma FirstSubmitFails(name: string, location: string, description: string)
    ensures var f := InitialHotelForm().(name := name, location := location, description := description);
            PayloadAsWritten(f).None?
  {
  }

  /** An empty comma field gives the empty list. */
  lemma SplitListEmpty()
    ensures SplitList("") == []
  {
    assert Split("", ',') == [""];
    assert Trim("") == "";
    assert Filter(TrimAll([""]), NonEmpty) == [];
  }

  /** The payload with a missing comma field read as the empty string, as
      the form holds after `resetForm`. */
  function Payload(f: HotelForm): (r: HotelPayload)
    ensures r.name == f.name && r.location == f.location && r.description == f.description
    ensures r.isActive == f.isActive
    ensures f.amenities.None? ==> r.amenities == []
    ensures f.images.None? ==> r.images == []
    ensures PayloadAsWritten(f).Some? ==> r == PayloadAsWritten(f).value
    ensures forall i :: 0 <= i < |r.amenities| ==> r.amenities[i] != "" && IsTrimmed(r.amenities[i])
    ensures forall i :: 0 <= i < |r.images| ==> r.images[i] != "" && IsTrimmed(r.images[i])
  {
    var amenities := if f.amenities.None? then [] else SplitList(f.amenities.value);
    var images := if f.images.None? then [] else SplitList(f.images.value);
    HotelPayload(f.name, f.location, f.description, amenities, images, f.isActive)
  }

  // ---------------------------------------------------------------------
  // The booking filter
  // ---------------------------------------------------------------------

  /** Where a listed booking says its hotel is: a hotel id string, or
      something else (nothing, or a populated hotel object). */
  datatype HotelRef = HotelId(id: Id) | Unresolved

  /** A booking as the page reads it; `status` is `""` when missing, and
      `hotel` and `checkIn` are the first truthy value of the page's `||`
      chains of alternative field names. */
  datatype ViewBooking = ViewBooking(hotel: HotelRef, status: string, checkIn: Option<int>)

  /** The booking filters of the page: the start of `fromDate`, the end
      (23:59:59) of `toDate`, and the status option, `all` or a status. */
  datatype BookingFilters = BookingFilters(from: Option<int>, toEnd: Option<int>, status: string)

  function LowerChar(c: char): char {
    if 'A' <= c <= 'Z' then (c as int + 32) as char else c
  }

  /** `toLowerCase` on the ASCII letters. */
  function Lower(s: string): (r: string)
    ensures |r| == |s|
    ensures forall i :: 0 <= i < |s| ==> r[i] == LowerChar(s[i])
  {
    seq(|s|, i requires 0 <= i < |s| => LowerChar(s[i]))
  }

  /** Lowering twice is lowering once. */
  lemma LowerIdempotent(s: string)
    ensures Lower(Lower(s)) == Lower(s)
  {
  }

  /** Hotel membership: every booking passes when the vendor has no
      hotels or the booking's hotel is not an id string. */
  function AtVendor(ids: set<Id>): ViewBooking -> bool {
    (b: ViewBooking) => ids == {} || b.hotel.Unresolved? || b.hotel.id in ids
  }

  /** `vendorBookings`. */
  function VendorBookingsView(ids: set<Id>, bs: seq<ViewBooking>): (r: seq<ViewBooking>)
    ensures forall b :: b in r <==> b in bs && (ids == {} || b.hotel.Unresolved? || b.hotel.id in ids)
    ensures forall b :: multiset(r)[b] == if ids == {} || b.hotel.Unresolved? || b.hotel.id in ids
                                         then multiset(bs)[b] else 0
  {
    var r := Filter(bs, AtVendor(ids));
    assert forall b :: b in r <==> multiset(r)[b] > 0;
    forall b ensures multiset(r)[b] == if AtVendor(ids)(b) then multiset(bs)[b] else 0 {
      FilterMultiplicity(bs, AtVendor(ids), b);
    }
    r
  }

  /** The view keeps the order of the list: it can be taken piece by piece. */
  lemma VendorBookingsViewConcat(ids: set<Id>, a: seq<ViewBooking>, b: seq<ViewBooking>)
    ensures VendorBookingsView(ids, a + b) == VendorBookingsView(ids, a) + VendorBookingsView(ids, b)
  {
    FilterConcat(a, b, AtVendor(ids));
  }

  function Passes(f: BookingFilters): ViewBooking -> bool {
    (b: ViewBooking) =>
      && (f.status == "all" || Lower(b.status) == f.status)
      && (f.from.None? || (b.checkIn.Some? && b.checkIn.value >= f.from.value))
      && (f.toEnd.None? || (b.checkIn.Some? && b.checkIn.value <= f.toEnd.value))
  }

  /** `filteredBookings`: a booking is kept when the status option is
      `all` or its lowercased status, and its check-in date is on or
      after a set start and on or before a set end; without a check-in
      date a set bound fails. */
  function FilteredBookings(bs: seq<ViewBooking>, f: BookingFilters): (r: seq<ViewBooking>)
    ensures forall b :: b in r <==> && b in bs
                                    && (f.status == "all" || Lower(b.status) == f.status)
                                    && (f.from.Some? ==> b.checkIn.Some? && b.checkIn.value >= f.from.value)
                                    && (f.toEnd.Some? ==> b.checkIn.Some? && b.checkIn.value <= f.toEnd.value)
    ensures forall b :: multiset(r)[b] == if Passes(f)(b) then multiset(bs)[b] else 0
  {
    var r := Filter(bs, Passes(f));
    assert forall b :: b in r <==> multiset(r)[b] > 0;
    forall b ensures multiset(r)[b] == if Passes(f)(b) then multiset(bs)[b] else 0 {
      FilterMultiplicity(bs, Passes(f), b);
    }
    r
  }

  /** Filtering keeps the order of the list: it can be taken piece by piece. */
  lemma FilteredBookingsConcat(a: seq<ViewBooking>, b: seq<ViewBooking>, f: BookingFilters)
    ensures FilteredBookings(a + b, f) == FilteredBookings(a, f) + FilteredBookings(b, f)
  {
    FilterConcat(a, b, Passes(f));
  }

  /** The filters the page starts with keep every booking. */
  lemma DefaultFiltersKeepAll(bs: seq<ViewBooking>)
    ensures FilteredBookings(bs, BookingFilters(None, None, "all")) == bs
  {
    FilterAll(bs, Passes(BookingFilters(None, None, "all")));
  }

  /** The distinct elements of `s`, in order of first occurrence (a `Set`
      iterated in insertion order). */
  function Distinct(s: seq<string>): (r: seq<string>)
    ensures forall x :: x in r <==> x in s
    ensures forall i, j :: 0 <= i < j < |r| ==> r[i] != r[j]
    ensures forall i, j :: 0 <= i < j < |r| ==> FirstIndex(s, r[i]) < FirstIndex(s, r[j])
    decreases |s|
  {
    if s == [] then []
    else
      var front := s[..|s| - 1];
      var last := s[|s| - 1];
      assert s == front + [last];
      var d := Distinct(front);
      FirstIndexSnoc(front, last);
      if last in d then d else d + [last]
  }

  function Statuses(bs: seq<ViewBooking>): (r: seq<string>)
    ensures |r| == |bs|
    ensures forall i :: 0 <= i < |bs| ==> r[i] == Lower(bs[i].status)
  {
    seq(|bs|, i requires 0 <= i < |bs| => Lower(bs[i].status))
  }

  /** `bookingStatuses`: the distinct non-empty lowercased statuses, in the
      order in which the bookings first show them. */
  function BookingStatuses(bs: seq<ViewBooking>): (r: seq<string>)
    ensures forall i, j :: 0 <= i < j < |r| ==> r[i] != r[j]
    ensures forall i, j :: 0 <= i < j < |r| ==> FirstIndex(Statuses(bs), r[i]) < FirstIndex(Statuses(bs), r[j])
    ensures forall s :: s in r <==> s != "" && exists b :: b in bs && Lower(b.status) == s
  {
    var all := Statuses(bs);
    var nonEmpty := Filter(all, NonEmpty);
    forall s ensures s in nonEmpty <==> s != "" && exists b :: b in bs && Lower(b.status) == s {
      FilterMultiplicity(all, NonEmpty, s);
      if s != "" && exists b :: b in bs && Lower(b.status) == s {
        var b :| b in bs && Lower(b.status) == s;
        var k :| 0 <= k < |bs| && bs[k] == b;
        assert all[k] == s;
      }
      if s in nonEmpty {
        assert s in all;
        var k :| 0 <= k < |all| && all[k] == s;
        assert bs[k] in bs;
      }
    }
    var r := Distinct(nonEmpty);
    forall i, j | 0 <= i < j < |r|
      ensures FirstIndex(all, r[i]) < FirstIndex(all, r[j])
    {
      FilterFirstIndex(all, NonEmpty, r[i], r[j]);
    }
    r
  }

  /** Every status the selector offers matches at least one booking. */
  lemma StatusOptionsMatch(bs: seq<ViewBooking>, s: string)
    requires s in BookingStatuses(bs)
    ensures FilteredBookings(bs, BookingFilters(None, None, s)) != []
  {
    var b :| b in bs && Lower(b.status) == s;
    assert b in FilteredBookings(bs, BookingFilters(None, None, s));
  }
}
