/**
 * The workshop views: timeslots with two workshop places each, adding a
 * workshop to a timeslot, moving it to another timeslot on update, and
 * logging a hacker's attendance by the QR code of their check-in.
 */
module WorkshopsViews {
  import opened Common

  datatype Workshop = Workshop(
    id: nat,
    title: string,
    description: string,
    location: string,
    host: string,
    open: bool,
    inPerson: bool)

  /** A timeslot with its two workshop places; either may be empty. */
  datatype Timeslot = Timeslot(id: nat, one: Option<nat>, two: Option<nat>)

  /** One hacker attending one workshop. */
  datatype Attendance = Attendance(workshop: nat, user: UserId)

  /** A hacker's check-in record: its QR code and the user of its application, if any. */
  datatype HackerCheckIn = HackerCheckIn(qr: string, user: Option<UserId>)

  // ---------------------------------------------------------------------
  // Availability of timeslots
  // ---------------------------------------------------------------------

  /** The number of timeslots whose first place is empty. */
  function EmptyFirsts(ts: seq<Timeslot>): nat
    decreases |ts|
  {
    if ts == [] then 0 else (if ts[0].one.None? then 1 else 0) + EmptyFirsts(ts[1..])
  }

  /** The number of timeslots whose second place is empty. */
  function EmptySeconds(ts: seq<Timeslot>): nat
    decreases |ts|
  {
    if ts == [] then 0 else (if ts[0].two.None? then 1 else 0) + EmptySeconds(ts[1..])
  }

  predicate HasEmptyPlace(t: Timeslot)
  {
    t.one.None? || t.two.None?
  }

  /** The two counts add up to something positive exactly when some timeslot has an empty place. */
  lemma {:induction false} EmptyCountsPositive(ts: seq<Timeslot>)
    ensures EmptyFirsts(ts) + EmptySeconds(ts) > 0 <==> exists i :: 0 <= i < |ts| && HasEmptyPlace(ts[i])
    decreases |ts|
  {
    if ts != [] {
      EmptyCountsPositive(ts[1..]);
      if exists i :: 0 <= i < |ts[1..]| && HasEmptyPlace(ts[1..][i]) {
        var i :| 0 <= i < |ts[1..]| && HasEmptyPlace(ts[1..][i]);
        assert HasEmptyPlace(ts[i + 1]);
      }
      if exists i :: 0 <= i < |ts| && HasEmptyPlace(ts[i]) {
        var i :| 0 <= i < |ts| && HasEmptyPlace(ts[i]);
        if i > 0 {
          assert HasEmptyPlace(ts[1..][i - 1]);
        }
      }
    }
  }

  // ---------------------------------------------------------------------
  // Placing workshops into timeslots
  // ---------------------------------------------------------------------

  /** Timeslot `t` holds workshop `w` in one of its places. */
  predicate Holds(t: Timeslot, w: nat)
  {
    t.one == Some(w) || t.two == Some(w)
  }

  /**
   * The fill rule: the first place if it is empty, otherwise the second
   * place, whatever it held.
   */
  function Fill(t: Timeslot, w: nat): (r: Timeslot)
    ensures r.id == t.id && Holds(r, w)
    ensures t.one.None? ==> r.one == Some(w) && r.two == t.two
    ensures t.one.Some? ==> r.one == t.one && r.two == Some(w)
  {
    if t.one.None? then t.(one := Some(w)) else t.(two := Some(w))
  }

  /** Every workshop sits in at most one place of one timeslot. */
  predicate ScheduledOnce(ts: seq<Timeslot>)
  {
    && (forall i, j :: 0 <= i < |ts| && 0 <= j < |ts| && ts[i].one.Some? ==> ts[i].one != ts[j].two)
    && (forall i, j :: 0 <= i < j < |ts| && ts[i].one.Some? ==> ts[i].one != ts[j].one)
    && (forall i, j :: 0 <= i < j < |ts| && ts[i].two.Some? ==> ts[i].two != ts[j].two)
  }

  predicate Unscheduled(ts: seq<Timeslot>, w: nat)
  {
    forall i :: 0 <= i < |ts| ==> !Holds(ts[i], w)
  }

  /** Filling a place with a workshop that is nowhere else keeps every workshop in one place. */
  lemma FillKeepsScheduledOnce(ts: seq<Timeslot>, k: nat, w: nat)
    requires k < |ts| && ScheduledOnce(ts) && Unscheduled(ts, w)
    ensures ScheduledOnce(ts[k := Fill(ts[k], w)])
  {
  }

  /** After filling a place of timeslot `k` with a workshop that was nowhere, only `k` holds it. */
  lemma FillOnlyHolder(ts: seq<Timeslot>, k: nat, w: nat, filled: seq<Timeslot>)
    requires k < |ts| && Unscheduled(ts, w) && filled == ts[k := Fill(ts[k], w)]
    ensures forall i :: 0 <= i < |filled| ==> (Holds(filled[i], w) <==> i == k)
  {
  }

  /** Emptying a place keeps every workshop in one place. */
  lemma ClearKeepsScheduledOnce(ts: seq<Timeslot>, k: nat, first: bool)
    requires k < |ts| && ScheduledOnce(ts)
    ensures ScheduledOnce(ts[k := if first then ts[k].(one := None) else ts[k].(two := None)])
  {
  }

  /** The first timeslot whose first place holds `w`. */
  function FirstHoldingOne(ts: seq<Timeslot>, w: nat): (r: Option<nat>)
    ensures r.Some? ==> r.value < |ts| && ts[r.value].one == Some(w)
                        && forall j :: 0 <= j < r.value ==> ts[j].one != Some(w)
    ensures r.None? ==> forall i :: 0 <= i < |ts| ==> ts[i].one != Some(w)
  {
    FirstIndex(ts, (t: Timeslot) => t.one == Some(w))
  }

  /** The first timeslot whose second place holds `w`. */
  function FirstHoldingTwo(ts: seq<Timeslot>, w: nat): (r: Option<nat>)
    ensures r.Some? ==> r.value < |ts| && ts[r.value].two == Some(w)
                        && forall j :: 0 <= j < r.value ==> ts[j].two != Some(w)
    ensures r.None? ==> forall i :: 0 <= i < |ts| ==> ts[i].two != Some(w)
  {
    FirstIndex(ts, (t: Timeslot) => t.two == Some(w))
  }

  /** The first timeslot with id `id`. */
  function IndexOfTimeslot(ts: seq<Timeslot>, id: nat): (r: Option<nat>)
    ensures r.Some? ==> r.value < |ts| && ts[r.value].id == id
                        && forall j :: 0 <= j < r.value ==> ts[j].id != id
    ensures r.None? ==> forall i :: 0 <= i < |ts| ==> ts[i].id != id
  {
    FirstIndex(ts, (t: Timeslot) => t.id == id)
  }

  /** Two timeslot tables with the same ids in the same order find a timeslot at the same place. */
  lemma SameIdsSameIndex(ts1: seq<Timeslot>, ts2: seq<Timeslot>, id: nat)
    requires |ts1| == |ts2| && forall i :: 0 <= i < |ts1| ==> ts1[i].id == ts2[i].id
    ensures IndexOfTimeslot(ts1, id) == IndexOfTimeslot(ts2, id)
  {
    var r1, r2 := IndexOfTimeslot(ts1, id), IndexOfTimeslot(ts2, id);
    if r1.Some? {
      assert ts2[r1.value].id == id;
    }
    if r2.Some? {
      assert ts1[r2.value].id == id;
    }
  }

  /** Timeslot `t` with `w` taken out of whichever of its places holds it. */
  function Without(t: Timeslot, w: nat): Timeslot
  {
    Timeslot(t.id, if t.one == Some(w) then None else t.one, if t.two == Some(w) then None else t.two)
  }

  /**
   * Takes workshop `w` out of its place: the first timeslot whose first place
   * holds it, or failing that the first whose second place does. Nothing when
   * no timeslot holds it. With every workshop in one place, that one place
   * is the only one emptied: every timeslot loses `w` and nothing else.
   */
  function Cleared(ts: seq<Timeslot>, w: nat): (r: Option<seq<Timeslot>>)
    requires ScheduledOnce(ts)
    ensures r.None? <==> forall i :: 0 <= i < |ts| ==> !Holds(ts[i], w)
    ensures r.Some? ==>
              && |r.value| == |ts| && Unscheduled(r.value, w) && ScheduledOnce(r.value)
              && forall i :: 0 <= i < |ts| ==> r.value[i] == Without(ts[i], w)
  {
    match FirstHoldingOne(ts, w)
    case Some(i) =>
      ClearKeepsScheduledOnce(ts, i, true);
      Some(ts[i := ts[i].(one := None)])
    case None =>
      match FirstHoldingTwo(ts, w)
      case Some(j) =>
        ClearKeepsScheduledOnce(ts, j, false);
        Some(ts[j := ts[j].(two := None)])
      case None => None
  }

  /** The first workshop with id `id`. */
  function IndexOfWorkshop(ws: seq<Workshop>, id: nat): (r: Option<nat>)
    ensures r.Some? ==> r.value < |ws| && ws[r.value].id == id
                        && forall j :: 0 <= j < r.value ==> ws[j].id != id
    ensures r.None? ==> forall i :: 0 <= i < |ws| ==> ws[i].id != id
  {
    FirstIndex(ws, (x: Workshop) => x.id == id)
  }

  /** The first check-in record with QR code `qr`. */
  function FindCheckIn(cs: seq<HackerCheckIn>, qr: string): (r: Option<nat>)
    ensures r.Some? ==> r.value < |cs| && cs[r.value].qr == qr
                        && forall j :: 0 <= j < r.value ==> cs[j].qr != qr
    ensures r.None? ==> forall i :: 0 <= i < |cs| ==> cs[i].qr != qr
  {
    FirstIndex(cs, (c: HackerCheckIn) => c.qr == qr)
  }

  /** No hacker is logged twice for the same workshop. */
  predicate NoRepeatAttendance(att: seq<Attendance>)
  {
    forall i, j :: 0 <= i < j < |att| ==> att[i] != att[j]
  }

  datatype UpdateOutcome =
    | Updated
    | NotScheduled      // the workshop is in no timeslot: the lookup of its old timeslot fails
    | UnknownTimeslot   // the chosen timeslot does not exist: the old place is already emptied

  datatype CheckinOutcome =
    | Logged
    | MissingInput      // no QR code or no workshop id
    | UnknownWorkshop   // the workshop lookup fails
    | NotOpen           // closed workshop and the volunteer is not an organizer
    | InvalidQr
    | NoUser
    | AlreadyAttended

  /** Workshop ids grow along the table and stay below the next id to hand out. */
  predicate IdsBelow(ws: seq<Workshop>, next: nat)
  {
    && (forall i, j :: 0 <= i < j < |ws| ==> ws[i].id < ws[j].id)
    && (forall i :: 0 <= i < |ws| ==> ws[i].id < next)
  }

  /** Timeslot ids are primary keys. */
  predicate SlotIdsDistinct(ts: seq<Timeslot>)
  {
    forall i, j :: 0 <= i < j < |ts| ==> ts[i].id != ts[j].id
  }

  /** Every workshop a timeslot refers to has an id below the next one to hand out. */
  predicate RefsBelow(ts: seq<Timeslot>, next: nat)
  {
    forall i :: 0 <= i < |ts| ==>
      (ts[i].one.Some? ==> ts[i].one.value < next) && (ts[i].two.Some? ==> ts[i].two.value < next)
  }

  /** Saving an edited workshop under its own id keeps the ids in order. */
  lemma ReplaceKeepsIds(ws: seq<Workshop>, next: nat, k: nat, w: Workshop)
    requires IdsBelow(ws, next) && k < |ws| && ws[k].id == w.id
    ensures IdsBelow(ws[k := w], next)
  {
    assert forall i :: 0 <= i < |ws| ==> ws[k := w][i].id == ws[i].id;
  }

  /** Emptying places keeps references below the next id. */
  lemma ClearKeepsRefs(ts: seq<Timeslot>, cleared: seq<Timeslot>, w: nat, next: nat)
    requires RefsBelow(ts, next) && |cleared| == |ts|
    requires forall i :: 0 <= i < |ts| ==> cleared[i] == Without(ts[i], w)
    ensures RefsBelow(cleared, next)
  {
  }

  /** Filling a place with a known workshop keeps references below the next id. */
  lemma FillKeepsRefs(ts: seq<Timeslot>, k: nat, w: nat, next: nat)
    requires RefsBelow(ts, next) && w < next && k < |ts|
    ensures RefsBelow(ts[k := Fill(ts[k], w)], next)
  {
  }

  /**
   * Workshop ids grow along the table and stay below the next id, and so do
   * the ids the timeslots refer to; every workshop sits in at most one place;
   * no attendance is logged twice.
   */
  predicate BoardValid(ws: seq<Workshop>, ts: seq<Timeslot>, att: seq<Attendance>, next: nat)
  {
    IdsBelow(ws, next) && SlotIdsDistinct(ts) && RefsBelow(ts, next) && ScheduledOnce(ts) && NoRepeatAttendance(att)
  }

  /** Taking a workshop out of its place keeps the board valid. */
  lemma ClearedKeepsBoardValid(ws: seq<Workshop>, ts: seq<Timeslot>, att: seq<Attendance>, next: nat, w: nat)
    requires BoardValid(ws, ts, att, next) && Cleared(ts, w).Some?
    ensures BoardValid(ws, Cleared(ts, w).value, att, next)
  {
    ClearKeepsRefs(ts, Cleared(ts, w).value, w, next);
  }

  /** Saving a workshop that is in no place and filling a place with it keeps the board valid. */
  lemma MoveKeepsBoardValid(ws: seq<Workshop>, ts: seq<Timeslot>, att: seq<Attendance>, next: nat,
                            wi: nat, w: Workshop, k: nat)
    requires BoardValid(ws, ts, att, next) && Unscheduled(ts, w.id)
    requires wi < |ws| && ws[wi].id == w.id && k < |ts|
    ensures BoardValid(ws[wi := w], ts[k := Fill(ts[k], w.id)], att, next)
  {
    ReplaceKeepsIds(ws, next, wi, w);
    FillKeepsScheduledOnce(ts, k, w.id);
    FillKeepsRefs(ts, k, w.id, next);
  }

  /** The workshops, their timeslots and the attendance log. */
  class WorkshopBoard {
    var workshops: seq<Workshop>
    var timeslots: seq<Timeslot>
    var attendances: seq<Attendance>
    var nextWorkshopId: nat

    ghost predicate Valid()
      reads this
    {
      BoardValid(workshops, timeslots, attendances, nextWorkshopId)
    }

    /** A board over empty timeslots, with no workshops and no attendance yet. */
    constructor (slotIds: seq<nat>)
      requires forall i, j :: 0 <= i < j < |slotIds| ==> slotIds[i] != slotIds[j]
      ensures Valid() && workshops == [] && attendances == []
      ensures |timeslots| == |slotIds|
      ensures forall i :: 0 <= i < |slotIds| ==> timeslots[i] == Timeslot(slotIds[i], None, None)
    {
      workshops := [];
      attendances := [];
      nextWorkshopId := 0;
      timeslots := seq(|slotIds|, i requires 0 <= i < |slotIds| => Timeslot(slotIds[i], None, None));
    }

    /** Whether the add form is offered: some timeslot still has an empty place. */
    function IsAvailable(): (r: bool)
      reads this
      ensures r <==> exists i :: 0 <= i < |timeslots| && HasEmptyPlace(timeslots[i])
    {
      EmptyCountsPositive(timeslots);
      EmptyFirsts(timeslots) + EmptySeconds(timeslots) > 0
    }

    /**
     * Saves a new workshop with the form's fields and puts it into the chosen
     * timeslot by the fill rule.
     */
    method AddWorkshop(fields: Workshop, slot: nat) returns (id: nat)
      requires Valid() && slot < |timeslots|
      modifies this
      ensures Valid()
      ensures id == old(nextWorkshopId) && nextWorkshopId == id + 1
      ensures workshops == old(workshops) + [fields.(id := id)]
      ensures timeslots == old(timeslots)[slot := Fill(old(timeslots)[slot], id)]
      ensures attendances == old(attendances)
    {
      id := nextWorkshopId;
      workshops := workshops + [fields.(id := id)];
      nextWorkshopId := nextWorkshopId + 1;
      FillKeepsScheduledOnce(timeslots, slot, id);
      timeslots := timeslots[slot := Fill(timeslots[slot], id)];
    }

    /**
     * Saves the edited workshop `w` and moves it: it is taken out of its old
     * place, then put into the timeslot with id `slotId` by the fill rule.
     * When that timeslot does not exist the old place stays emptied.
     */
    method UpdateWorkshop(w: Workshop, slotId: nat) returns (outcome: UpdateOutcome)
      requires Valid() && IndexOfWorkshop(workshops, w.id).Some?
      modifies this
      ensures Valid()
      ensures attendances == old(attendances) && nextWorkshopId == old(nextWorkshopId)
      ensures outcome == NotScheduled <==> Cleared(old(timeslots), w.id).None?
      ensures outcome == NotScheduled ==> timeslots == old(timeslots) && workshops == old(workshops)
      ensures outcome != NotScheduled ==> (outcome == UnknownTimeslot <==> IndexOfTimeslot(old(timeslots), slotId).None?)
      ensures outcome == UnknownTimeslot ==>
                timeslots == Cleared(old(timeslots), w.id).value && workshops == old(workshops)
      ensures outcome == Updated ==>
                var cleared := Cleared(old(timeslots), w.id).value;
                var k := IndexOfTimeslot(old(timeslots), slotId).value;
                && timeslots == cleared[k := Fill(cleared[k], w.id)]
                && workshops == old(workshops)[IndexOfWorkshop(old(workshops), w.id).value := w]
                && forall i :: 0 <= i < |timeslots| ==> (Holds(timeslots[i], w.id) <==> i == k)
    {
      var cleared := Cleared(timeslots, w.id);
      if cleared.None? {
        return NotScheduled;
      }
      var ts := cleared.value;
      SameIdsSameIndex(timeslots, ts, slotId);
      ClearedKeepsBoardValid(workshops, timeslots, attendances, nextWorkshopId, w.id);
      timeslots := ts;
      var slot := IndexOfTimeslot(ts, slotId);
      if slot.None? {
        return UnknownTimeslot;
      }
      var k := slot.value;
      var wi := IndexOfWorkshop(workshops, w.id).value;
      MoveKeepsBoardValid(workshops, ts, attendances, nextWorkshopId, wi, w, k);
      timeslots := ts[k := Fill(ts[k], w.id)];
      workshops := workshops[wi := w];
      FillOnlyHolder(ts, k, w.id, timeslots);
      outcome := Updated;
    }

    /**
     * Logs that the hacker behind QR code `qr` attends workshop `workshopId`.
     * Refused, with nothing logged, when an input is missing, the workshop
     * does not exist, it is closed and the volunteer is no organizer, the QR
     * code is unknown or has no user, or the hacker is already logged.
     */
    method CheckIn(workshopId: Option<nat>, qr: Option<string>, isOrganizer: bool, checkins: seq<HackerCheckIn>)
      returns (outcome: CheckinOutcome)
      requires Valid()
      modifies this
      ensures Valid()
      ensures workshops == old(workshops) && timeslots == old(timeslots) && nextWorkshopId == old(nextWorkshopId)
      ensures outcome == MissingInput <==> workshopId.None? || !NonEmpty(qr)
      ensures outcome != MissingInput ==>
        var wi := IndexOfWorkshop(workshops, workshopId.value);
        && (outcome == UnknownWorkshop <==> wi.None?)
        && (wi.Some? ==>
              var closed := !workshops[wi.value].open && !isOrganizer;
              var ci := FindCheckIn(checkins, qr.value);
              && (outcome == NotOpen <==> closed)
              && (outcome == InvalidQr <==> !closed && ci.None?)
              && (outcome == NoUser <==> !closed && ci.Some? && checkins[ci.value].user.None?)
              && (!closed && ci.Some? && checkins[ci.value].user.Some? ==>
                    var a := Attendance(workshopId.value, checkins[ci.value].user.value);
                    && (outcome == AlreadyAttended <==> a in old(attendances))
                    && (outcome == Logged ==> attendances == old(attendances) + [a])))
      ensures outcome != Logged ==> attendances == old(attendances)
    {
      if workshopId.None? || !NonEmpty(qr) {
        return MissingInput;
      }
      var wi := IndexOfWorkshop(workshops, workshopId.value);
      if wi.None? {
        return UnknownWorkshop;
      }
      var workshop := workshops[wi.value];
      if !workshop.open && !isOrganizer {
        return NotOpen;
      }
      var ci := FindCheckIn(checkins, qr.value);
      if ci.None? {
        return InvalidQr;
      }
      var hacker := checkins[ci.value].user;
      if hacker.None? {
        return NoUser;
      }
      var attendance := Attendance(workshop.id, hacker.value);
      if attendance in attendances {
        return AlreadyAttended;
      }
      attendances := attendances + [attendance];
      outcome := Logged;
    }
  }
}
