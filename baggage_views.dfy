/**
 * The baggage views: the bag table, checking a bag in (manually placed or
 * placed by the position allocator), checking it out, and the lists of bags
 * that are still stored.
 */
module BaggageViews {
  import opened Common
  import opened BaggageModels

  /**
   * What the position allocator hands back: a tag (0 means it found no
   * position), the room name, the row and the column. The allocator itself
   * is not part of this model; callers pass its answer for the bag's
   * `special` flag as a function.
   */
  datatype Placement = Placement(tag: int, room: string, row: string, col: nat)

  /** The form fields of a check-in; `owner` is the user the submitted id resolved to. */
  datatype AddRequest = AddRequest(
    bagType: string,
    bagColor: string,
    bagDescription: Option<string>,
    bagSpecial: Option<string>,
    owner: Option<UserId>,
    posManual: Option<string>,
    posRoom: Option<string>,
    posRow: Option<string>,
    posCol: Option<string>)

  /**
   * How a check-in ends: the bag is stored under a new id; the manual position
   * is held by a stored bag; the manual column is not a number (the column
   * lookup raises); the allocator found nothing; or the insert is refused
   * (no owner, or a value wider than its column).
   */
  datatype AddOutcome = CheckedIn(bid: nat) | PositionTaken | BadColumn | NoPosition | SaveRejected

  predicate IsSpecial(req: AddRequest)
  {
    req.bagSpecial == Some("special")
  }

  /** The manual path: asked for, not a special bag, and room, row and column all given. */
  predicate TakesManualPath(req: AddRequest)
  {
    req.posManual == Some("manual") && !IsSpecial(req)
    && NonEmpty(req.posRoom) && NonEmpty(req.posRow) && NonEmpty(req.posCol)
  }

  /**
   * The position a request resolves to: the manual (room, row, col), tagged 3,
   * or the allocator's answer; None when the manual column is not a number.
   */
  function Resolved(req: AddRequest, getPosition: bool -> Placement): (r: Option<Placement>)
    ensures r.None? <==> TakesManualPath(req) && ParseDecimal(req.posCol.value).None?
    ensures TakesManualPath(req) && r.Some? ==>
              && r.value.tag != 0 && r.value.room == req.posRoom.value && r.value.row == req.posRow.value
              && ParseDecimal(req.posCol.value) == Some(r.value.col)
    ensures !TakesManualPath(req) ==> r == Some(getPosition(IsSpecial(req)))
    ensures IsSpecial(req) ==> r == Some(getPosition(true))
  {
    if TakesManualPath(req) then
      match ParseDecimal(req.posCol.value)
      case None => None
      case Some(c) => Some(Placement(3, req.posRoom.value, req.posRow.value, c))
    else
      Some(getPosition(IsSpecial(req)))
  }

  /** The room a name refers to, if a room with that primary key exists. */
  function FindRoom(rooms: seq<Room>, name: string): (r: Option<string>)
    ensures r.Some? <==> exists i :: 0 <= i < |rooms| && rooms[i].name == name
    ensures r.Some? ==> r.value == name
  {
    if rooms == [] then None
    else if rooms[0].name == name then Some(name)
    else FindRoom(rooms[1..], name)
  }

  /** The bag a check-in stores. */
  function NewBag(bid: nat, owner: UserId, inby: UserId, req: AddRequest, p: Placement, rooms: seq<Room>): (b: Bag)
    ensures b.status == Added && b.outby.None? && b.bid == bid && b.owner == owner && b.inby == inby
    ensures b.room.Some? <==> exists i :: 0 <= i < |rooms| && rooms[i].name == p.room
    ensures b.room.Some? ==> b.room.value == p.room
    ensures b.row == p.row && b.col == p.col && b.special == IsSpecial(req)
    ensures b.btype == req.bagType && b.color == req.bagColor && b.description == req.bagDescription
  {
    Bag(bid, owner, inby, None, Added, FindRoom(rooms, p.room), p.row, p.col,
        req.bagType, req.bagColor, req.bagDescription, IsSpecial(req))
  }

  /** `b` is a stored bag at (room, row, col). */
  predicate HoldsSlot(b: Bag, room: string, row: string, col: nat)
  {
    b.status == Added && b.room == Some(room) && b.row == row && b.col == col
  }

  /** The number of stored bags at (room, row, col): the query behind "position taken". */
  function CountAt(bags: seq<Bag>, room: string, row: string, col: nat): (n: nat)
    ensures n <= |bags|
    ensures n == 0 <==> forall i :: 0 <= i < |bags| ==> !HoldsSlot(bags[i], room, row, col)
    decreases |bags|
  {
    if bags == [] then 0
    else CountAt(bags[..|bags| - 1], room, row, col)
         + (if HoldsSlot(bags[|bags| - 1], room, row, col) then 1 else 0)
  }

  /** No two stored bags in a known room share a row and column. */
  predicate SlotsExclusive(bags: seq<Bag>)
  {
    forall i, j :: 0 <= i < j < |bags| && bags[i].status == Added && bags[i].room.Some? ==>
      !HoldsSlot(bags[j], bags[i].room.value, bags[i].row, bags[i].col)
  }

  /** The placement names a known room's (row, col) no stored bag holds, or no known room at all. */
  predicate FreeFor(bags: seq<Bag>, rooms: seq<Room>, p: Placement)
  {
    FindRoom(rooms, p.room).Some? ==> CountAt(bags, p.room, p.row, p.col) == 0
  }

  /** Storing a bag at a free position keeps positions exclusive. */
  lemma StoreOnFreeSlot(bags: seq<Bag>, b: Bag)
    requires SlotsExclusive(bags)
    requires b.room.Some? ==> CountAt(bags, b.room.value, b.row, b.col) == 0
    ensures SlotsExclusive(bags + [b])
  {
    var s := bags + [b];
    forall i, j | 0 <= i < j < |s| && s[i].status == Added && s[i].room.Some?
      ensures !HoldsSlot(s[j], s[i].room.value, s[i].row, s[i].col)
    {
      if j == |bags| && HoldsSlot(b, s[i].room.value, s[i].row, s[i].col) {
        assert HoldsSlot(bags[i], b.room.value, b.row, b.col);
      }
    }
  }

  /** The bag as it is after a check-out by `user`: handed back, and nothing else about it changes. */
  function CheckedOut(b: Bag, user: UserId): (r: Bag)
    ensures r.status == Removed && r.outby == Some(user)
    ensures r.(status := b.status, outby := b.outby) == b
  {
    b.(status := Removed, outby := Some(user))
  }

  /** Checking a bag out keeps positions exclusive: it only frees a position. */
  lemma CheckOutKeepsExclusive(bags: seq<Bag>, i: nat, user: UserId)
    requires i < |bags| && SlotsExclusive(bags)
    ensures SlotsExclusive(bags[i := CheckedOut(bags[i], user)])
  {
  }

  /** Where the bag with id `bid` is in the table, if anywhere (the first match). */
  function IndexOfBag(bags: seq<Bag>, bid: nat): (r: Option<nat>)
    ensures r.Some? ==> r.value < |bags| && bags[r.value].bid == bid
                        && forall j :: 0 <= j < r.value ==> bags[j].bid != bid
    ensures r.None? ==> forall j :: 0 <= j < |bags| ==> bags[j].bid != bid
  {
    FirstIndex(bags, (b: Bag) => b.bid == bid)
  }

  /** `b` belongs in a list of stored bags, restricted to one owner when one is given. */
  predicate Listed(b: Bag, owner: Option<UserId>)
  {
    b.status == Added && (owner.Some? ==> b.owner == owner.value)
  }

  /** The stored bags, in table order, of one owner when one is given. */
  function ActiveBags(bags: seq<Bag>, owner: Option<UserId>): (r: seq<Bag>)
    ensures forall b :: b in r <==> b in bags && Listed(b, owner)
    ensures |r| <= |bags|
  {
    Filter(bags, (b: Bag) => Listed(b, owner))
  }

  /** A bag stored by a check-in joins the end of every list it belongs in. */
  lemma CheckInJoinsActiveList(bags: seq<Bag>, b: Bag, owner: Option<UserId>)
    ensures ActiveBags(bags + [b], owner) == ActiveBags(bags, owner) + (if Listed(b, owner) then [b] else [])
  {
    FilterSnoc(bags, b, (b: Bag) => Listed(b, owner));
  }

  /** Checking out a listed bag shortens the list by one; any other check-out leaves its length. */
  lemma {:induction false} CheckOutLeavesActiveList(bags: seq<Bag>, i: nat, user: UserId, owner: Option<UserId>)
    requires i < |bags|
    ensures |ActiveBags(bags[i := CheckedOut(bags[i], user)], owner)|
            == |ActiveBags(bags, owner)| - (if Listed(bags[i], owner) then 1 else 0)
    decreases |bags|
  {
    var after := bags[i := CheckedOut(bags[i], user)];
    if i > 0 {
      CheckOutLeavesActiveList(bags[1..], i - 1, user, owner);
      assert after[1..] == bags[1..][i - 1 := CheckedOut(bags[i], user)];
    } else {
      assert after[1..] == bags[1..];
    }
  }

  /**
   * Ids grow along the table and are below the next id to hand out; every
   * bag fits its columns; `outby` is set exactly on removed bags.
   */
  ghost predicate WellFormed(bags: seq<Bag>, nextBid: nat)
  {
    && (forall i, j :: 0 <= i < j < |bags| ==> bags[i].bid < bags[j].bid)
    && (forall i :: 0 <= i < |bags| ==> bags[i].bid < nextBid)
    && (forall i :: 0 <= i < |bags| ==> FitsColumns(bags[i]))
    && (forall i :: 0 <= i < |bags| ==> (bags[i].status == Removed <==> bags[i].outby.Some?))
  }

  /** Appending a new stored bag under the next id keeps the table well formed. */
  lemma AppendKeepsWellFormed(bags: seq<Bag>, nextBid: nat, b: Bag)
    requires WellFormed(bags, nextBid) && b.bid == nextBid && FitsColumns(b)
    requires b.status == Added && b.outby.None?
    ensures WellFormed(bags + [b], nextBid + 1)
  {
  }

  /** Checking a bag out keeps the table well formed. */
  lemma CheckOutKeepsWellFormed(bags: seq<Bag>, nextBid: nat, i: nat, user: UserId)
    requires i < |bags| && WellFormed(bags, nextBid)
    ensures WellFormed(bags[i := CheckedOut(bags[i], user)], nextBid)
  {
    var after := bags[i := CheckedOut(bags[i], user)];
    assert forall k :: 0 <= k < |bags| ==> after[k].bid == bags[k].bid;
  }

  /** The bag table together with the rooms it refers to. */
  class BagStore {
    var rooms: seq<Room>
    var bags: seq<Bag>
    var nextBid: nat

    ghost predicate Valid()
      reads this
    {
      WellFormed(bags, nextBid)
    }

    constructor (rooms: seq<Room>)
      ensures Valid() && this.rooms == rooms && bags == []
    {
      this.rooms := rooms;
      bags := [];
      nextBid := 0;
    }

    /**
     * Checks a bag in. The manual position is refused when a stored bag holds
     * it; otherwise the allocator is asked. A bag is stored only under a
     * non-zero tag.
     */
    method Add(req: AddRequest, inby: UserId, getPosition: bool -> Placement) returns (outcome: AddOutcome)
      requires Valid()
      modifies this
      ensures Valid() && rooms == old(rooms)
      ensures outcome == BadColumn <==> Resolved(req, getPosition).None?
      ensures Resolved(req, getPosition).Some? ==>
        var p := Resolved(req, getPosition).value;
        var taken := TakesManualPath(req) && CountAt(old(bags), p.room, p.row, p.col) > 0;
        && (outcome == PositionTaken <==> taken)
        && (outcome == NoPosition <==> !taken && p.tag == 0)
        && (outcome == SaveRejected <==>
              !taken && p.tag != 0
              && (req.owner.None? || !FitsColumns(NewBag(old(nextBid), req.owner.value, inby, req, p, rooms))))
        && (outcome.CheckedIn? ==>
              && outcome.bid == old(nextBid)
              && nextBid == old(nextBid) + 1
              && bags == old(bags) + [NewBag(old(nextBid), req.owner.value, inby, req, p, rooms)])
      ensures !outcome.CheckedIn? ==> bags == old(bags) && nextBid == old(nextBid)
      ensures old(SlotsExclusive(bags)) && Resolved(req, getPosition).Some?
              && (TakesManualPath(req) || FreeFor(old(bags), rooms, Resolved(req, getPosition).value))
              ==> SlotsExclusive(bags)
    {
      var special := IsSpecial(req);
      var position: Placement;
      if TakesManualPath(req) {
        var col := ParseDecimal(req.posCol.value);
        if col.None? {
          return BadColumn;
        }
        position := Placement(3, req.posRoom.value, req.posRow.value, col.value);
        if CountAt(bags, position.room, position.row, position.col) > 0 {
          return PositionTaken;
        }
      } else {
        position := getPosition(special);
      }
      if position.tag == 0 {
        return NoPosition;
      }
      if req.owner.None? {
        return SaveRejected;
      }
      var bag := NewBag(nextBid, req.owner.value, inby, req, position, rooms);
      if !FitsColumns(bag) {
        return SaveRejected;
      }
      if SlotsExclusive(bags) && (bag.room.Some? ==> CountAt(bags, bag.room.value, bag.row, bag.col) == 0) {
        StoreOnFreeSlot(bags, bag);
      }
      AppendKeepsWellFormed(bags, nextBid, bag);
      bags := bags + [bag];
      nextBid := nextBid + 1;
      outcome := CheckedIn(bag.bid);
    }

    /**
     * Checks the bag with id `bid` out on behalf of `user`. There is no guard
     * against a bag that is already removed: its `outby` is overwritten.
     * An unknown id changes nothing.
     */
    method CheckOut(bid: nat, user: UserId) returns (found: bool)
      requires Valid()
      modifies this
      ensures Valid() && rooms == old(rooms) && nextBid == old(nextBid)
      ensures found <==> IndexOfBag(old(bags), bid).Some?
      ensures !found ==> bags == old(bags)
      ensures found ==>
        var i := IndexOfBag(old(bags), bid).value;
        bags == old(bags)[i := CheckedOut(old(bags)[i], user)]
      ensures old(SlotsExclusive(bags)) ==> SlotsExclusive(bags)
    {
      var index := IndexOfBag(bags, bid);
      if index.None? {
        return false;
      }
      var i := index.value;
      if SlotsExclusive(bags) {
        CheckOutKeepsExclusive(bags, i, user);
      }
      CheckOutKeepsWellFormed(bags, nextBid, i, user);
      bags := bags[i := CheckedOut(bags[i], user)];
      found := true;
    }
  }
}
