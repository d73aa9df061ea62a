/** The booking dialog: its form state, the lookup that ignores the
    reservation being edited, the day-by-day conflict scan, the fixed order
    of checks a submission goes through, and the dialog's own state. */
module Booking {

  import opened Options
  import opened Text
  import opened Dates
  import opened Calendar
  import Store
  import Rows

  const NotPaidYet: string := "Not Paid Yet"

  /** The dialog's form. */
  datatype FormState = FormState(
    guestName: string,
    boatType: string,
    boatLength: string,
    boatWidth: string,
    email: string,
    phoneNumber: string,
    paymentStatus: string,
    notes: string,
    startDate: DateValue,
    endDate: DateValue)

  /** `createFormState(initialDateContext, reservation)`; `today` is `new Date()`. */
  function CreateFormState(context: Option<DateValue>, reservation: Option<Reservation>, today: int): (f: FormState)
    ensures reservation.None? ==>
      && f.guestName == "" && f.boatType == "" && f.boatLength == "" && f.boatWidth == ""
      && f.email == "" && f.phoneNumber == "" && f.notes == "" && f.paymentStatus == NotPaidYet
      && f.startDate == (if context.Some? && IsValid(context.value) then context.value else Day(today))
      && f.endDate.Day? && f.endDate.day == f.startDate.day + 1
    ensures reservation.Some? ==> var r := reservation.value;
      && f.guestName == r.guestName
      && f.boatType == OrDefault(r.boatType, "") && f.boatLength == OrDefault(r.boatLength, "")
      && f.boatWidth == OrDefault(r.boatWidth, "") && f.email == OrDefault(r.email, "")
      && f.phoneNumber == OrDefault(r.phoneNumber, "") && f.notes == OrDefault(r.notes, "")
      && f.paymentStatus == OrDefault(r.paymentStatus, NotPaidYet)
      && (r.startDate.Iso? ==> f.startDate == Day(r.startDate.day))
      && (r.endDate.Iso? ==> f.endDate == Day(r.endDate.day))
      && (r.startDate.Unparseable? ==> f.startDate == InvalidDate)
      && (r.endDate.Unparseable? ==> f.endDate == InvalidDate)
      && (r.startDate.Blank? ==> f.startDate == (if context.Some? then context.value else Day(today)))
      && (r.endDate.Blank? ==> f.endDate == AddDays(if context.Some? then context.value else Day(today), 1))
  {
    match reservation
    case Some(r) =>
      var fallback := if context.Some? then context.value else Day(today);
      FormState(
        r.guestName, OrDefault(r.boatType, ""), OrDefault(r.boatLength, ""), OrDefault(r.boatWidth, ""),
        OrDefault(r.email, ""), OrDefault(r.phoneNumber, ""), OrDefault(r.paymentStatus, NotPaidYet),
        OrDefault(r.notes, ""),
        if r.startDate.Blank? then fallback else ParseIso(r.startDate),
        if r.endDate.Blank? then AddDays(fallback, 1) else ParseIso(r.endDate))
    case None =>
      var start := if context.Some? && IsValid(context.value) then context.value else Day(today);
      FormState("", "", "", "", "", "", NotPaidYet, "", start, AddDays(start, 1))
  }

  /** Which date picker changed. */
  datatype DateField = StartDate | EndDate

  /** The state update of `handleDateChange(field, picked)`; `None` is an
      undefined pick. A valid start that lands after the end pushes the end
      to the day after the new start; nothing else moves. */
  function DateChanged(prev: FormState, field: DateField, picked: Option<DateValue>): (next: FormState)
    ensures (picked.None? || !IsValid(picked.value)) ==> next == prev
    ensures next.(startDate := prev.startDate, endDate := prev.endDate) == prev
    ensures picked.Some? && IsValid(picked.value) && field == EndDate ==>
      next == prev.(endDate := picked.value)
    ensures picked.Some? && IsValid(picked.value) && field == StartDate ==>
      && next.startDate == picked.value
      && (prev.endDate.Day? ==> next.endDate.Day? && next.endDate.day >= next.startDate.day)
      && (next.endDate != prev.endDate ==>
            IsBefore(prev.endDate, next.startDate) && next.endDate == AddDays(next.startDate, 1))
  {
    match picked
    case Some(Day(d)) =>
      var moved := if field == StartDate then prev.(startDate := Day(d)) else prev.(endDate := Day(d));
      if field == StartDate && IsBefore(moved.endDate, Day(d)) then moved.(endDate := AddDays(Day(d), 1))
      else moved
    case _ => prev
  }

  /** `res.dock_id === dockId && res.id !== excludeReservationId` and the
      reservation covers the day. No exclusion id means nothing is excluded. */
  predicate Occupies(r: Reservation, dock: string, exclude: Option<ResId>, day: int) {
    Eligible(r, dock, exclude) && Covers(r, day)
  }

  function IdOf(r: Reservation): ResId {
    r.id
  }

  predicate Eligible(r: Reservation, dock: string, exclude: Option<ResId>) {
    r.dockId == dock && (exclude.None? || r.id != exclude.value)
  }

  /** The first reservation, in list order, that occupies the dock on the
      day without being the excluded one. */
  function FirstOccupant(rs: seq<Reservation>, dock: string, exclude: Option<ResId>, day: int): (found: Option<Reservation>)
    ensures found.None? <==> forall i :: 0 <= i < |rs| ==> !Occupies(rs[i], dock, exclude, day)
    ensures found.Some? ==> found.value in rs && Occupies(found.value, dock, exclude, day)
  {
    if rs == [] then None
    else if Occupies(rs[0], dock, exclude, day) then Some(rs[0])
    else FirstOccupant(rs[1..], dock, exclude, day)
  }

  /** The reservation found is the earliest one in the list that occupies
      the day. */
  lemma {:induction false} FirstOccupantIsEarliest(rs: seq<Reservation>, dock: string, exclude: Option<ResId>, day: int)
    requires FirstOccupant(rs, dock, exclude, day).Some?
    ensures exists i :: (0 <= i < |rs| && rs[i] == FirstOccupant(rs, dock, exclude, day).value
      && forall k :: 0 <= k < i ==> !Occupies(rs[k], dock, exclude, day))
  {
    if !Occupies(rs[0], dock, exclude, day) {
      FirstOccupantIsEarliest(rs[1..], dock, exclude, day);
      var i :| 0 <= i < |rs[1..]| && rs[1..][i] == FirstOccupant(rs[1..], dock, exclude, day).value
        && forall k :: 0 <= k < i ==> !Occupies(rs[1..][k], dock, exclude, day);
      assert rs[i + 1] == FirstOccupant(rs, dock, exclude, day).value;
      assert forall k :: 0 <= k < i + 1 ==> k == 0 || rs[k] == rs[1..][k - 1];
    } else {
      assert rs[0] == FirstOccupant(rs, dock, exclude, day).value;
    }
  }

  /** With the reservation's own id excluded, the lookup never reports it,
      whatever its dates. */
  lemma ExcludedNeverReported(rs: seq<Reservation>, dock: string, r: Reservation, day: int)
    ensures FirstOccupant(rs, dock, Some(r.id), day) != Some(r)
  {
  }

  /** Without an exclusion id this lookup is the calendar's lookup. */
  lemma {:induction false} NoExclusionIsCalendarLookup(rs: seq<Reservation>, dock: string, day: int)
    ensures FirstOccupant(rs, dock, None, day) == FirstOnDock(rs, dock, day)
  {
    if rs != [] {
      NoExclusionIsCalendarLookup(rs[1..], dock, day);
    }
  }

  /** Excluding an id is the calendar's lookup over the list with the rows
      of that id filtered out. */
  lemma {:induction false} ExclusionIsFiltering(rs: seq<Reservation>, dock: string, id: ResId, day: int)
    ensures FirstOccupant(rs, dock, Some(id), day) == FirstOnDock(Rows.Without(rs, IdOf, id), dock, day)
  {
    if rs != [] {
      ExclusionIsFiltering(rs[1..], dock, id, day);
      var rest := Rows.Without(rs[1..], IdOf, id);
      if rs[0].id == id {
        assert Rows.Without(rs, IdOf, id) == [] + rest;
        assert [] + rest == rest;
      } else {
        var kept := Rows.Without(rs, IdOf, id);
        assert kept == [rs[0]] + rest;
        assert kept[0] == rs[0] && kept[1..] == rest;
      }
    }
  }

  /** `getReservationOnDateExcludingCurrent`: a linear search with early return. */
  method ReservationOnDateExcludingCurrent(target: int, dock: string, rs: seq<Reservation>, exclude: Option<ResId>)
    returns (found: Option<Reservation>)
    ensures found == FirstOccupant(rs, dock, exclude, target)
  {
    var i := 0;
    while i < |rs|
      invariant 0 <= i <= |rs|
      invariant FirstOccupant(rs[i..], dock, exclude, target) == FirstOccupant(rs, dock, exclude, target)
    {
      var res := rs[i];
      assert rs[i..][0] == res && rs[i..][1..] == rs[i + 1..];
      if res.dockId == dock && (exclude.None? || res.id != exclude.value) {
        var resStart := StoredDay(res.startDate);
        var resEnd := StoredDay(res.endDate);
        if resStart.Some? && resEnd.Some? && target >= resStart.value && target <= resEnd.value {
          return Some(res);
        }
      }
      i := i + 1;
    }
    found := None;
  }

  /** A conflict: the first day of the candidate range that is taken, and
      the reservation that takes it. */
  datatype Conflict = Conflict(day: int, reservation: Reservation)

  /** The scan of the candidate days `lo..hi` in ascending order: the
      first day with an occupant, and that occupant. */
  function ScanFrom(lo: int, hi: int, dock: string, rs: seq<Reservation>, exclude: Option<ResId>): (c: Option<Conflict>)
    decreases hi - lo
    ensures c.None? ==> forall d :: lo <= d <= hi ==> FirstOccupant(rs, dock, exclude, d).None?
    ensures c.Some? ==>
      && lo <= c.value.day <= hi
      && FirstOccupant(rs, dock, exclude, c.value.day) == Some(c.value.reservation)
      && forall d :: lo <= d < c.value.day ==> FirstOccupant(rs, dock, exclude, d).None?
  {
    if lo > hi then None
    else match FirstOccupant(rs, dock, exclude, lo)
      case Some(r) => Some(Conflict(lo, r))
      case None => ScanFrom(lo + 1, hi, dock, rs, exclude)
  }

  /** Some day of `lo..hi` is a day of the reservation's own range. */
  predicate MeetsRange(r: Reservation, lo: int, hi: int) {
    && r.startDate.Iso? && r.endDate.Iso?
    && lo <= hi && r.startDate.day <= r.endDate.day
    && r.startDate.day <= hi && lo <= r.endDate.day
  }

  /** The day-by-day scan finds nothing exactly when no eligible reservation
      shares a day with the candidate range: the direct interval-overlap
      test gives the same answer as enumerating the days. */
  lemma {:induction false} ScanNoneIff(lo: int, hi: int, dock: string, rs: seq<Reservation>, exclude: Option<ResId>)
    decreases hi - lo
    ensures ScanFrom(lo, hi, dock, rs, exclude).None? <==>
      forall i :: 0 <= i < |rs| ==> !(Eligible(rs[i], dock, exclude) && MeetsRange(rs[i], lo, hi))
  {
    if lo <= hi {
      ScanNoneIff(lo + 1, hi, dock, rs, exclude);
      forall i | 0 <= i < |rs|
        ensures MeetsRange(rs[i], lo, hi) <==> Covers(rs[i], lo) || MeetsRange(rs[i], lo + 1, hi)
      {
      }
    }
  }

  /** For a reservation whose end is not before its start and a candidate
      range that is not empty, sharing a day is the usual overlap test
      `start <= candidateEnd && end >= candidateStart`. */
  lemma MeetsRangeIsOverlap(r: Reservation, lo: int, hi: int)
    requires r.startDate.Iso? && r.endDate.Iso? && r.startDate.day <= r.endDate.day && lo <= hi
    ensures MeetsRange(r, lo, hi) <==> r.startDate.day <= hi && r.endDate.day >= lo
  {
  }

  /** The reported day is either the first candidate day or the first day
      of the reported reservation, and no eligible reservation that meets
      the range starts earlier than it within the range. */
  lemma ConflictDayIsEarliest(lo: int, hi: int, dock: string, rs: seq<Reservation>, exclude: Option<ResId>)
    requires ScanFrom(lo, hi, dock, rs, exclude).Some?
    ensures var c := ScanFrom(lo, hi, dock, rs, exclude).value;
      && (c.day == lo || c.day == c.reservation.startDate.day)
      && forall i :: 0 <= i < |rs| && Eligible(rs[i], dock, exclude) && MeetsRange(rs[i], lo, hi) ==>
           c.day <= (if rs[i].startDate.day < lo then lo else rs[i].startDate.day)
  {
    var c := ScanFrom(lo, hi, dock, rs, exclude).value;
    var r := c.reservation;
    assert r in rs && Occupies(r, dock, exclude, c.day);
    if c.day != lo {
      assert FirstOccupant(rs, dock, exclude, c.day - 1).None?;
      assert !Covers(r, c.day - 1);
    }
    forall i | 0 <= i < |rs| && Eligible(rs[i], dock, exclude) && MeetsRange(rs[i], lo, hi)
      ensures c.day <= (if rs[i].startDate.day < lo then lo else rs[i].startDate.day)
    {
      var d := if rs[i].startDate.day < lo then lo else rs[i].startDate.day;
      assert Occupies(rs[i], dock, exclude, d);
      assert FirstOccupant(rs, dock, exclude, d).Some?;
    }
  }

  /** The conflict scan of `handleSubmit`: every day of the candidate
      range, in ascending order, until one is taken. */
  method FindConflict(lo: int, hi: int, dock: string, rs: seq<Reservation>, exclude: Option<ResId>)
    returns (c: Option<Conflict>)
    ensures c == ScanFrom(lo, hi, dock, rs, exclude)
  {
    var dayToCheck := lo;
    while dayToCheck <= hi
      invariant lo <= dayToCheck && (lo > hi || dayToCheck <= hi + 1)
      invariant ScanFrom(dayToCheck, hi, dock, rs, exclude) == ScanFrom(lo, hi, dock, rs, exclude)
      decreases hi + 1 - dayToCheck
    {
      var conflicting := ReservationOnDateExcludingCurrent(dayToCheck, dock, rs, exclude);
      assert ScanFrom(dayToCheck, hi, dock, rs, exclude) ==
        if conflicting.Some? then Some(Conflict(dayToCheck, conflicting.value))
        else ScanFrom(dayToCheck + 1, hi, dock, rs, exclude);
      if conflicting.Some? {
        return Some(Conflict(dayToCheck, conflicting.value));
      }
      dayToCheck := dayToCheck + 1;
    }
    c := None;
  }

  /** Why a submission or a cancellation did not go through. */
  datatype BookingError =
    | EndBeforeStart                 // "End date cannot be before start date."
    | MissingDock                    // "Critical error: Dock ID is missing for the operation."
    | InvalidDates                   // "Invalid start or end date for conflict checking."
    | DateConflict(dock: string, day: int, guestName: string)
    | MissingReservationId           // "No reservation ID found to update."
    | UpdateFailed(message: string)
    | InsertFailed(message: string)
    | NothingToCancel                // "No reservation selected to cancel."
    | CancelFailed(message: string)

  /** The columns a submission writes. The dock is not among them: an
      update cannot move a reservation to another dock. */
  datatype ReservationFields = ReservationFields(
    startDay: int, endDay: int, guestName: string, boatType: string, boatLength: string,
    boatWidth: string, email: string, phoneNumber: string, paymentStatus: string, notes: string)

  /** The payload built from the form; the dates go out as 'yyyy-MM-dd'. */
  function FieldsOf(f: FormState): (p: ReservationFields)
    requires f.startDate.Day? && f.endDate.Day?
    ensures p.startDay == f.startDate.day && p.endDay == f.endDate.day
    ensures p.guestName == f.guestName && p.paymentStatus == f.paymentStatus
    ensures p.boatType == f.boatType && p.boatLength == f.boatLength && p.boatWidth == f.boatWidth
    ensures p.email == f.email && p.phoneNumber == f.phoneNumber && p.notes == f.notes
  {
    ReservationFields(f.startDate.day, f.endDate.day, f.guestName, f.boatType, f.boatLength,
      f.boatWidth, f.email, f.phoneNumber, f.paymentStatus, f.notes)
  }

  /** The single call a submission or a cancellation makes to the store. */
  datatype StoreCall =
    | NoCall
    | InsertCall(dockId: string, fields: ReservationFields)
    | UpdateCall(id: ResId, fields: ReservationFields)
    | DeleteCall(id: ResId)

  /** What the checks of `handleSubmit` decide, before the store answers. */
  datatype Decision =
    | Reject(error: BookingError)
    | Insert(dockId: string, fields: ReservationFields)
    | Update(id: ResId, fields: ReservationFields)
    | CloseOnly

  function CallOf(d: Decision): (c: StoreCall)
    ensures c.NoCall? <==> d.Reject? || d.CloseOnly?
    ensures d.Insert? ==> c == InsertCall(d.dockId, d.fields)
    ensures d.Update? ==> c == UpdateCall(d.id, d.fields)
  {
    match d
    case Insert(dock, fields) => InsertCall(dock, fields)
    case Update(id, fields) => UpdateCall(id, fields)
    case _ => NoCall
  }

  /** `existingReservation?.dock_id || selectedDockForNewBooking?.dockId`. */
  function OperationDock(existing: Option<Reservation>, selected: Option<NewBookingContext>): (dock: Option<string>)
    ensures dock.Some? ==> dock.value != ""
    ensures existing.Some? && existing.value.dockId != "" ==> dock == Some(existing.value.dockId)
    ensures (existing.None? || existing.value.dockId == "") ==>
      dock == (if selected.Some? && selected.value.dockId != "" then Some(selected.value.dockId) else None)
  {
    if existing.Some? && existing.value.dockId != "" then Some(existing.value.dockId)
    else if selected.Some? && selected.value.dockId != "" then Some(selected.value.dockId)
    else None
  }

  /** `existingReservation?.id`. */
  function ExcludedId(existing: Option<Reservation>): (id: Option<ResId>)
    ensures id.Some? <==> existing.Some?
    ensures existing.Some? ==> id.value == existing.value.id
  {
    if existing.Some? then Some(existing.value.id) else None
  }

  /** `!existingReservation.id`: 0 and '' are falsy. */
  predicate IsFalsyId(id: ResId) {
    id == NumId(0) || id == TextId("")
  }

  predicate EndsBeforeStart(f: FormState) {
    IsBefore(f.endDate, f.startDate)
  }

  predicate DatesValid(f: FormState) {
    IsValid(f.startDate) && IsValid(f.endDate)
  }

  /** The checks of `handleSubmit`, in the code's order; the first that
      fails decides, and only a submission that passes them all reaches
      the store. There is no check of the guest name. */
  function Decide(f: FormState, existing: Option<Reservation>, selected: Option<NewBookingContext>,
                  rs: seq<Reservation>, isEditing: bool): (d: Decision)
    ensures d == Reject(EndBeforeStart) <==> EndsBeforeStart(f)
    ensures d == Reject(MissingDock) <==> !EndsBeforeStart(f) && OperationDock(existing, selected).None?
    ensures d == Reject(InvalidDates) <==>
      !EndsBeforeStart(f) && OperationDock(existing, selected).Some? && !DatesValid(f)
    ensures (d.Reject? && d.error.DateConflict?) <==>
      && OperationDock(existing, selected).Some? && DatesValid(f) && !EndsBeforeStart(f)
      && ScanFrom(f.startDate.day, f.endDate.day, OperationDock(existing, selected).value, rs, ExcludedId(existing)).Some?
    ensures (d.Reject? && d.error.DateConflict?) ==>
      var c := ScanFrom(f.startDate.day, f.endDate.day, OperationDock(existing, selected).value, rs, ExcludedId(existing)).value;
      d.error == DateConflict(OperationDock(existing, selected).value, c.day, c.reservation.guestName)
    ensures d == Reject(MissingReservationId) <==>
      && !EndsBeforeStart(f) && OperationDock(existing, selected).Some? && DatesValid(f)
      && ScanFrom(f.startDate.day, f.endDate.day, OperationDock(existing, selected).value, rs, ExcludedId(existing)).None?
      && existing.Some? && isEditing && IsFalsyId(existing.value.id)
    ensures d.Reject? ==> d.error.EndBeforeStart? || d.error.MissingDock? || d.error.InvalidDates?
                          || d.error.DateConflict? || d.error.MissingReservationId?
    ensures d.Insert? ==> existing.None? && Some(d.dockId) == OperationDock(existing, selected)
    ensures d.Update? ==> existing.Some? && isEditing && d.id == existing.value.id && !IsFalsyId(d.id)
    ensures d.CloseOnly? ==> existing.Some? && !isEditing
    ensures d.Insert? || d.Update? ==> DatesValid(f) && d.fields == FieldsOf(f)
  {
    if EndsBeforeStart(f) then Reject(EndBeforeStart)
    else match OperationDock(existing, selected)
      case None => Reject(MissingDock)
      case Some(dock) =>
        if !DatesValid(f) then Reject(InvalidDates)
        else match ScanFrom(f.startDate.day, f.endDate.day, dock, rs, ExcludedId(existing))
          case Some(c) => Reject(DateConflict(dock, c.day, c.reservation.guestName))
          case None =>
            if existing.Some? && isEditing then
              (if IsFalsyId(existing.value.id) then Reject(MissingReservationId)
               else Update(existing.value.id, FieldsOf(f)))
            else if existing.None? then Insert(dock, FieldsOf(f))
            else CloseOnly
  }

  /** A submission that reaches the store has a start no later than its
      end, and no other reservation on its dock shares a day with it. */
  lemma PersistOnlyWhenFree(f: FormState, existing: Option<Reservation>, selected: Option<NewBookingContext>,
                            rs: seq<Reservation>, isEditing: bool)
    requires Decide(f, existing, selected, rs, isEditing).Insert? || Decide(f, existing, selected, rs, isEditing).Update?
    ensures DatesValid(f) && f.startDate.day <= f.endDate.day
    ensures forall i :: 0 <= i < |rs| ==>
      !(Eligible(rs[i], OperationDock(existing, selected).value, ExcludedId(existing))
        && MeetsRange(rs[i], f.startDate.day, f.endDate.day))
  {
    ScanNoneIff(f.startDate.day, f.endDate.day, OperationDock(existing, selected).value, rs, ExcludedId(existing));
  }

  /** Editing a reservation never conflicts with that reservation itself. */
  lemma EditNeverConflictsWithItself(f: FormState, r: Reservation, selected: Option<NewBookingContext>, isEditing: bool)
    ensures !Decide(f, Some(r), selected, [r], isEditing).Reject?
      || !Decide(f, Some(r), selected, [r], isEditing).error.DateConflict?
  {
    var dock := OperationDock(Some(r), selected);
    if dock.Some? && DatesValid(f) && !EndsBeforeStart(f) {
      ScanNoneIff(f.startDate.day, f.endDate.day, dock.value, [r], Some(r.id));
    }
  }

  /** Identical ranges on different docks never conflict. */
  lemma OtherDocksNeverConflict(lo: int, hi: int, dock: string, rs: seq<Reservation>, exclude: Option<ResId>)
    requires forall i :: 0 <= i < |rs| ==> rs[i].dockId != dock
    ensures ScanFrom(lo, hi, dock, rs, exclude).None?
  {
    ScanNoneIff(lo, hi, dock, rs, exclude);
  }

  /** Booked on dock "102" from day d to day d+2 (2025-06-10 to 2025-06-12 in
      the example), for the examples below. */
  function Example(d: int): Reservation {
    Reservation(NumId(1), "102", Iso(d), Iso(d + 2), "Example Guest",
      None, None, None, None, None, None, None)
  }

  /** d+2..d+4 conflicts on day d+2; d+3..d+5 does not conflict; editing the
      reservation itself to d..d+3 does not conflict; a one-day range on the
      last day conflicts on that day. */
  lemma Examples(d: int)
    ensures ScanFrom(d + 2, d + 4, "102", [Example(d)], None) == Some(Conflict(d + 2, Example(d)))
    ensures ScanFrom(d + 3, d + 5, "102", [Example(d)], None) == None
    ensures ScanFrom(d, d + 3, "102", [Example(d)], Some(NumId(1))) == None
    ensures ScanFrom(d + 2, d + 2, "102", [Example(d)], None) == Some(Conflict(d + 2, Example(d)))
  {
    ScanNoneIff(d + 3, d + 5, "102", [Example(d)], None);
    ScanNoneIff(d, d + 3, "102", [Example(d)], Some(NumId(1)));
  }

  /** The reservation a successful insert creates, with the id the store gives it. */
  function Inserted(id: ResId, dock: string, p: ReservationFields): (r: Reservation)
    ensures r.id == id && r.dockId == dock && r.guestName == p.guestName
    ensures forall day :: Covers(r, day) <==> p.startDay <= day <= p.endDay
  {
    Reservation(id, dock, FormatIso(p.startDay), FormatIso(p.endDay), p.guestName,
      Some(p.boatType), Some(p.boatLength), Some(p.boatWidth), Some(p.email),
      Some(p.phoneNumber), Some(p.paymentStatus), Some(p.notes))
  }

  /** A reservation after a successful update: every written column is
      replaced; the id and the dock stay. */
  function Applied(r: Reservation, p: ReservationFields): (u: Reservation)
    ensures u.id == r.id && u.dockId == r.dockId && u.guestName == p.guestName
    ensures forall day :: Covers(u, day) <==> p.startDay <= day <= p.endDay
  {
    r.(startDate := FormatIso(p.startDay), endDate := FormatIso(p.endDay), guestName := p.guestName,
       boatType := Some(p.boatType), boatLength := Some(p.boatLength), boatWidth := Some(p.boatWidth),
       email := Some(p.email), phoneNumber := Some(p.phoneNumber), paymentStatus := Some(p.paymentStatus),
       notes := Some(p.notes))
  }

  /** The table after an update by id. */
  function AfterUpdate(rs: seq<Reservation>, id: ResId, p: ReservationFields): seq<Reservation> {
    Rows.Update(rs, (r: Reservation) => r.id, id, (r: Reservation) => Applied(r, p))
  }

  /** Two reservations share a day. */
  predicate Overlap(a: Reservation, b: Reservation) {
    && a.startDate.Iso? && a.endDate.Iso? && b.startDate.Iso? && b.endDate.Iso?
    && a.startDate.day <= a.endDate.day && b.startDate.day <= b.endDate.day
    && a.startDate.day <= b.endDate.day && b.startDate.day <= a.endDate.day
  }

  /** Sharing a day, as defined above, is having a common day covered. */
  lemma OverlapIsCommonDay(a: Reservation, b: Reservation)
    ensures Overlap(a, b) <==> exists day :: Covers(a, day) && Covers(b, day)
  {
    if Overlap(a, b) {
      var day := if a.startDate.day < b.startDate.day then b.startDate.day else a.startDate.day;
      assert Covers(a, day) && Covers(b, day);
    }
  }

  /** No two distinct rows on the same dock share a day. */
  ghost predicate DocksExclusive(rs: seq<Reservation>) {
    forall i, j :: 0 <= i < |rs| && 0 <= j < |rs| && i != j && rs[i].dockId == rs[j].dockId ==> !Overlap(rs[i], rs[j])
  }

  ghost predicate UniqueIds(rs: seq<Reservation>) {
    forall i, j :: 0 <= i < |rs| && 0 <= j < |rs| && i != j ==> rs[i].id != rs[j].id
  }

  /** When no other client writes in between, a new booking that passes the
      checks keeps every dock free of double bookings. */
  lemma InsertKeepsDocksExclusive(f: FormState, selected: Option<NewBookingContext>, rs: seq<Reservation>,
                                  isEditing: bool, newId: ResId)
    requires DocksExclusive(rs)
    requires Decide(f, None, selected, rs, isEditing).Insert?
    ensures var d := Decide(f, None, selected, rs, isEditing);
      DocksExclusive(rs + [Inserted(newId, d.dockId, d.fields)])
  {
    var d := Decide(f, None, selected, rs, isEditing);
    PersistOnlyWhenFree(f, None, selected, rs, isEditing);
    var n := Inserted(newId, d.dockId, d.fields);
    var all := rs + [n];
    forall i, j | 0 <= i < |all| && 0 <= j < |all| && i != j && all[i].dockId == all[j].dockId
      ensures !Overlap(all[i], all[j])
    {
      if i == |rs| {
        assert !(Eligible(rs[j], d.dockId, None) && MeetsRange(rs[j], d.fields.startDay, d.fields.endDay));
      } else if j == |rs| {
        assert !(Eligible(rs[i], d.dockId, None) && MeetsRange(rs[i], d.fields.startDay, d.fields.endDay));
      } else {
        assert all[i] == rs[i] && all[j] == rs[j];
      }
    }
  }

  /** When no other client writes in between, an edit that passes the
      checks keeps every dock free of double bookings. */
  lemma UpdateKeepsDocksExclusive(f: FormState, r: Reservation, selected: Option<NewBookingContext>, rs: seq<Reservation>)
    requires DocksExclusive(rs) && UniqueIds(rs) && r in rs && r.dockId != ""
    requires Decide(f, Some(r), selected, rs, true).Update?
    ensures var d := Decide(f, Some(r), selected, rs, true);
      DocksExclusive(AfterUpdate(rs, r.id, d.fields))
  {
    var d := Decide(f, Some(r), selected, rs, true);
    PersistOnlyWhenFree(f, Some(r), selected, rs, true);
    var all := AfterUpdate(rs, r.id, d.fields);
    forall i, j | 0 <= i < |all| && 0 <= j < |all| && i != j && all[i].dockId == all[j].dockId
      ensures !Overlap(all[i], all[j])
    {
      if rs[i].id == r.id {
        assert rs[j].id != r.id;
        assert all[j] == rs[j];
        assert !(Eligible(rs[j], r.dockId, Some(r.id)) && MeetsRange(rs[j], d.fields.startDay, d.fields.endDay));
      } else if rs[j].id == r.id {
        assert all[i] == rs[i];
        assert !(Eligible(rs[i], r.dockId, Some(r.id)) && MeetsRange(rs[i], d.fields.startDay, d.fields.endDay));
      } else {
        assert all[i] == rs[i] && all[j] == rs[j];
      }
    }
  }

  /** Saving an edit form that was filled from a reservation and left as it
      was writes the reservation back unchanged, provided its dates parse,
      no optional column is null and its payment status is not ''. */
  lemma UnchangedEditRoundTrip(r: Reservation, today: int)
    requires r.startDate.Iso? && r.endDate.Iso?
    requires r.boatType.Some? && r.boatLength.Some? && r.boatWidth.Some? && r.email.Some?
    requires r.phoneNumber.Some? && r.notes.Some?
    requires r.paymentStatus.Some? && r.paymentStatus.value != ""
    ensures var f := CreateFormState(None, Some(r), today);
      DatesValid(f) && Applied(r, FieldsOf(f)) == r
  {
  }

  /** A fresh new-booking form is one day long, so it passes the date checks. */
  lemma FreshFormPassesDateChecks(context: Option<DateValue>, today: int)
    ensures var f := CreateFormState(context, None, today);
      DatesValid(f) && !EndsBeforeStart(f)
  {
  }

  /** Which face the dialog shows. */
  datatype Mode = NewBooking | Viewing | Editing

  /** The booking dialog. Its props are the constant fields. */
  class BookingModal {
    const existing: Option<Reservation>
    const selected: Option<NewBookingContext>
    const allReservations: seq<Reservation>
    var formData: FormState
    var isSubmitting: bool
    var submitError: Option<BookingError>
    var isEditing: bool

    /** `isViewOrEditMode` together with `isEditing`. */
    function Mode(): (m: Mode)
      reads this
      ensures m == NewBooking <==> existing.None?
      ensures m == Editing <==> existing.Some? && isEditing
    {
      if existing.None? then NewBooking else if isEditing then Editing else Viewing
    }

    /** The dialog once it has opened and its effect has run: a form filled
        from the reservation, or a new-booking form on the clicked day. */
    constructor (existing: Option<Reservation>, selected: Option<NewBookingContext>,
                 allReservations: seq<Reservation>, today: int)
      ensures this.existing == existing && this.selected == selected
      ensures this.allReservations == allReservations
      ensures formData == CreateFormState(
        if existing.None? && selected.Some? then Some(Day(selected.value.date)) else None, existing, today)
      ensures !isSubmitting && submitError == None && !isEditing
    {
      this.existing := existing;
      this.selected := selected;
      this.allReservations := allReservations;
      formData := CreateFormState(
        if existing.None? && selected.Some? then Some(Day(selected.value.date)) else None, existing, today);
      isSubmitting := false;
      submitError := None;
      isEditing := false;
    }

    method HandleDateChange(field: DateField, picked: Option<DateValue>)
      modifies this`formData
      ensures formData == DateChanged(old(formData), field, picked)
    {
      formData := DateChanged(formData, field, picked);
    }

    /** `handleSubmit`: the checks of Decide, in their order, then at most
      one store call. `answer` is what the store replies to that call;
      `refresh` is `onBookingSuccess()` and `close` is `onClose()`. */
    method HandleSubmit(answer: Store.Outcome) returns (call: StoreCall, refresh: bool, close: bool)
      modifies this`isSubmitting, this`submitError, this`isEditing
      ensures var d := Decide(formData, existing, selected, allReservations, old(isEditing));
        && call == CallOf(d)
        && !isSubmitting
        && (d.Reject? ==> submitError == Some(d.error) && !refresh && !close && isEditing == old(isEditing))
        && (d.CloseOnly? ==> submitError == None && !refresh && close && isEditing == old(isEditing))
        && ((d.Insert? || d.Update?) && answer.Failed? ==>
              && submitError == Some(if d.Insert? then InsertFailed(answer.message) else UpdateFailed(answer.message))
              && !refresh && !close && isEditing == old(isEditing))
        && ((d.Insert? || d.Update?) && answer.Succeeded? ==>
              submitError == None && refresh && close && isEditing == (d.Insert? && old(isEditing)))
    {
      isSubmitting := true;
      submitError := None;
      call, refresh, close := NoCall, false, false;

      if IsBefore(formData.endDate, formData.startDate) {
        submitError := Some(EndBeforeStart);
        isSubmitting := false;
        return;
      }

      var dockIdForOperation := OperationDock(existing, selected);
      if dockIdForOperation.None? {
        submitError := Some(MissingDock);
        isSubmitting := false;
        return;
      }
      var dock := dockIdForOperation.value;

      if IsValid(formData.startDate) && IsValid(formData.endDate) {
        var conflict := FindConflict(formData.startDate.day, formData.endDate.day, dock,
                                     allReservations, ExcludedId(existing));
        if conflict.Some? {
          submitError := Some(DateConflict(dock, conflict.value.day, conflict.value.reservation.guestName));
          isSubmitting := false;
          return;
        }
      } else {
        submitError := Some(InvalidDates);
        isSubmitting := false;
        return;
      }

      if existing.Some? && isEditing {
        if IsFalsyId(existing.value.id) {
          submitError := Some(MissingReservationId);
          isSubmitting := false;
          return;
        }
        call := UpdateCall(existing.value.id, FieldsOf(formData));
        isSubmitting := false;
        match answer {
          case Failed(message) =>
            submitError := Some(UpdateFailed(message));
          case Succeeded =>
            isEditing := false;
            refresh, close := true, true;
        }
      } else if existing.None? {
        call := InsertCall(dock, FieldsOf(formData));
        isSubmitting := false;
        match answer {
          case Failed(message) =>
            submitError := Some(InsertFailed(message));
          case Succeeded =>
            refresh, close := true, true;
        }
      } else {
        isSubmitting := false;
        close := true;
      }
    }

    /** `handleCancelReservation`: `confirmed` is the answer to the
        confirmation prompt, `answer` the store's reply to the delete. */
    method HandleCancelReservation(confirmed: bool, answer: Store.Outcome)
      returns (call: StoreCall, refresh: bool, close: bool)
      modifies this`isSubmitting, this`submitError
      ensures existing.None? || IsFalsyId(existing.value.id) ==>
        call == NoCall && submitError == Some(NothingToCancel) && isSubmitting == old(isSubmitting)
        && !refresh && !close
      ensures existing.Some? && !IsFalsyId(existing.value.id) && !confirmed ==>
        call == NoCall && submitError == old(submitError) && isSubmitting == old(isSubmitting)
        && !refresh && !close
      ensures existing.Some? && !IsFalsyId(existing.value.id) && confirmed ==>
        && call == DeleteCall(existing.value.id) && !isSubmitting
        && submitError == (if answer.Failed? then Some(CancelFailed(answer.message)) else None)
        && refresh == close == answer.Succeeded?
    {
      call, refresh, close := NoCall, false, false;
      if existing.None? || IsFalsyId(existing.value.id) {
        submitError := Some(NothingToCancel);
        return;
      }
      if !confirmed {
        return;
      }
      isSubmitting := true;
      submitError := None;
      call := DeleteCall(existing.value.id);
      isSubmitting := false;
      match answer {
        case Failed(message) =>
          submitError := Some(CancelFailed(message));
        case Succeeded =>
          refresh, close := true, true;
      }
    }

    method HandleEditClick()
      modifies this`isEditing
      ensures isEditing
      ensures Mode() == if existing.Some? then Editing else NewBooking
    {
      isEditing := true;
    }

    /** Leaves edit mode and refills the form from the reservation, dropping
        whatever was typed. */
    method HandleCancelEditClick(today: int)
      modifies this`isEditing, this`formData, this`submitError
      ensures !isEditing && Mode() != Editing && submitError == None
      ensures formData == if existing.Some? then CreateFormState(None, existing, today) else old(formData)
    {
      isEditing := false;
      if existing.Some? {
        formData := CreateFormState(None, existing, today);
      }
      submitError := None;
    }

    /** Leaves edit mode and asks the page to close the dialog. */
    method HandleCloseDialog() returns (close: bool)
      modifies this`isEditing
      ensures !isEditing && Mode() != Editing && close
    {
      isEditing := false;
      close := true;
    }
  }

}
