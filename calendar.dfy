/** The reservation calendar: the reservation record, the single-day
    lookup every grid slot uses, the month grid, what a click on a slot
    does, and the page state that picks the month and the booking dialog. */
module Calendar {

  import opened Options
  import opened Dates
  import opened Gregorian
  import Store

  /** A reservation id as the store hands it out: a number or a string. */
  datatype ResId = NumId(n: int) | TextId(s: string)

  /** One row of the reservations table. A nullable column is an Option;
      the creation timestamp plays no part in the core and is not kept. */
  datatype Reservation = Reservation(
    id: ResId,
    dockId: string,
    startDate: DateText,
    endDate: DateText,
    guestName: string,
    boatType: Option<string>,
    boatLength: Option<string>,
    boatWidth: Option<string>,
    email: Option<string>,
    phoneNumber: Option<string>,
    paymentStatus: Option<string>,
    notes: Option<string>)

  /** The reservation occupies `day`: both stored dates parse and the day
      lies between them, both ends included. A blank or malformed column
      compares as NaN, so it never covers any day. */
  predicate Covers(r: Reservation, day: int)
    ensures Covers(r, day) <==> r.startDate.Iso? && r.endDate.Iso? && r.startDate.day <= day <= r.endDate.day
  {
    var s, e := StoredDay(r.startDate), StoredDay(r.endDate);
    s.Some? && e.Some? && s.value <= day <= e.value
  }

  /** The physical docks, in the order the grid lists them. */
  const DockLabels: seq<string> := ["102", "112", "113", "114", "300", "301", "310"]

  /** The first reservation, in list order, on `dock` that covers `day`. */
  function FirstOnDock(rs: seq<Reservation>, dock: string, day: int): (found: Option<Reservation>)
    ensures found.None? <==> forall i :: 0 <= i < |rs| ==> !(rs[i].dockId == dock && Covers(rs[i], day))
    ensures found.Some? ==> found.value in rs && found.value.dockId == dock && Covers(found.value, day)
  {
    if rs == [] then None
    else if rs[0].dockId == dock && Covers(rs[0], day) then Some(rs[0])
    else FirstOnDock(rs[1..], dock, day)
  }

  /** A reservation alone in the list is found on every day of its range
      and on no other day. */
  lemma SingleReservationMembership(r: Reservation, day: int)
    requires r.startDate.Iso? && r.endDate.Iso?
    ensures FirstOnDock([r], r.dockId, day) == Some(r) <==> r.startDate.day <= day <= r.endDate.day
    ensures !(r.startDate.day <= day <= r.endDate.day) ==> FirstOnDock([r], r.dockId, day) == None
  {
  }

  /** `getReservationForDockOnDate`: a linear search with early return. */
  method ReservationForDockOnDate(target: int, dock: string, rs: seq<Reservation>) returns (found: Option<Reservation>)
    ensures found == FirstOnDock(rs, dock, target)
  {
    var i := 0;
    while i < |rs|
      invariant 0 <= i <= |rs|
      invariant FirstOnDock(rs[i..], dock, target) == FirstOnDock(rs, dock, target)
    {
      var res := rs[i];
      assert rs[i..][0] == res && rs[i..][1..] == rs[i + 1..];
      if res.dockId == dock {
        var resStart := StoredDay(res.startDate);
        var resEnd := StoredDay(res.endDate);
        if resStart.Some? && resEnd.Some? && target >= resStart.value && target <= resEnd.value {
          return Some(res);
        }
      }
      i := i + 1;
    }
    found := None;
  }

  /** One dock's slot in a day cell, with the reservation shown there, if any. */
  datatype Slot = Slot(dock: string, reservation: Option<Reservation>)

  /** A grid cell: a blank before the first of the month, or a day. */
  datatype Cell = BlankCell | DayCell(dayOfMonth: int, date: int, slots: seq<Slot>)

  /** The slots of a day cell on `date`: one per dock label, in label order,
      each showing what the single-day lookup finds for its dock. */
  ghost predicate SlotsFor(slots: seq<Slot>, date: int, rs: seq<Reservation>) {
    && |slots| == |DockLabels|
    && forall j :: 0 <= j < |slots| ==> slots[j] == Slot(DockLabels[j], FirstOnDock(rs, DockLabels[j], date))
  }

  /** `DOCK_LABELS.map(...)` inside one day cell. */
  method DaySlots(date: int, rs: seq<Reservation>) returns (slots: seq<Slot>)
    ensures SlotsFor(slots, date, rs)
  {
    slots := [];
    var j := 0;
    while j < |DockLabels|
      invariant 0 <= j <= |DockLabels|
      invariant |slots| == j
      invariant forall k :: 0 <= k < j ==> slots[k] == Slot(DockLabels[k], FirstOnDock(rs, DockLabels[k], date))
    {
      var reservation := ReservationForDockOnDate(date, DockLabels[j], rs);
      slots := slots + [Slot(DockLabels[j], reservation)];
      j := j + 1;
    }
  }

  /** The month grid: `firstDayOfMonth` blank cells, then the days
      1..`numberOfDaysInMonth` in order, each with its slots. */
  method DayCells(ym: YearMonth, rs: seq<Reservation>) returns (cells: seq<Cell>)
    requires ym.Valid()
    ensures |cells| == FirstWeekday(ym) + DaysInMonth(ym.year, ym.month)
    ensures forall i :: 0 <= i < FirstWeekday(ym) ==> cells[i] == BlankCell
    ensures forall i :: FirstWeekday(ym) <= i < |cells| ==>
      && cells[i].DayCell?
      && cells[i].dayOfMonth == i - FirstWeekday(ym) + 1
      && cells[i].date == DayNumber(ym.year, ym.month, i - FirstWeekday(ym) + 1)
      && SlotsFor(cells[i].slots, cells[i].date, rs)
  {
    var numberOfDaysInMonth := DaysInMonth(ym.year, ym.month);
    var firstDayOfMonth := FirstWeekday(ym);
    cells := [];
    var i := 0;
    while i < firstDayOfMonth
      invariant 0 <= i <= firstDayOfMonth
      invariant |cells| == i
      invariant forall k :: 0 <= k < i ==> cells[k] == BlankCell
    {
      cells := cells + [BlankCell];
      i := i + 1;
    }
    var day := 1;
    while day <= numberOfDaysInMonth
      invariant 1 <= day <= numberOfDaysInMonth + 1
      invariant |cells| == firstDayOfMonth + day - 1
      invariant forall k :: 0 <= k < firstDayOfMonth ==> cells[k] == BlankCell
      invariant forall k :: firstDayOfMonth <= k < |cells| ==>
        && cells[k].DayCell?
        && cells[k].dayOfMonth == k - firstDayOfMonth + 1
        && cells[k].date == DayNumber(ym.year, ym.month, k - firstDayOfMonth + 1)
        && SlotsFor(cells[k].slots, cells[k].date, rs)
    {
      var cellDate := DayNumber(ym.year, ym.month, day);
      var slots := DaySlots(cellDate, rs);
      cells := cells + [DayCell(day, cellDate, slots)];
      day := day + 1;
    }
  }

  /** The context of a new booking: the day and the dock that were clicked. */
  datatype NewBookingContext = NewBookingContext(date: int, dockId: string)

  /** What a click on a slot asks the page to do. */
  datatype ClickAction = OpenNewBooking(context: NewBookingContext) | ViewReservation(reservation: Reservation)

  /** The slot's `onClick`: a free slot opens a new booking for exactly
      its day and dock, a booked one opens the reservation it shows. */
  function SlotClick(date: int, slot: Slot): (a: ClickAction)
    ensures a.OpenNewBooking? <==> slot.reservation.None?
    ensures a.OpenNewBooking? ==> a.context == NewBookingContext(date, slot.dock)
    ensures a.ViewReservation? ==> slot.reservation == Some(a.reservation)
  {
    match slot.reservation
    case None => OpenNewBooking(NewBookingContext(date, slot.dock))
    case Some(r) => ViewReservation(r)
  }

  /** A click on the j-th slot of a day cell opens a new booking exactly
      when no reservation on that dock covers the day, and otherwise opens
      a reservation on that dock that covers it. */
  lemma GridClick(slots: seq<Slot>, date: int, rs: seq<Reservation>, j: int)
    requires SlotsFor(slots, date, rs) && 0 <= j < |slots|
    ensures var a := SlotClick(date, slots[j]);
      && (a.OpenNewBooking? <==> forall i :: 0 <= i < |rs| ==> !(rs[i].dockId == DockLabels[j] && Covers(rs[i], date)))
      && (a.OpenNewBooking? ==> a.context == NewBookingContext(date, DockLabels[j]))
      && (a.ViewReservation? ==> a.reservation in rs && a.reservation.dockId == DockLabels[j] && Covers(a.reservation, date))
  {
    assert slots[j] == Slot(DockLabels[j], FirstOnDock(rs, DockLabels[j], date));
  }

  /** The calendar page state. */
  class MarinaCalendar {
    var current: YearMonth
    var reservations: seq<Reservation>
    var isLoadingReservations: bool
    var fetchError: Option<string>
    var isModalOpen: bool
    var selectedDockForNewBooking: Option<NewBookingContext>
    var reservationToViewOrEdit: Option<Reservation>

    /** The shown month is a real month, and the dialog is open exactly
        when it has a context, which is a new booking or a reservation,
        never both. */
    ghost predicate Valid()
      reads this
    {
      && current.Valid()
      && !(selectedDockForNewBooking.Some? && reservationToViewOrEdit.Some?)
      && (isModalOpen <==> selectedDockForNewBooking.Some? || reservationToViewOrEdit.Some?)
    }

    /** The page as it mounts: May 2025, nothing loaded yet, dialog closed. */
    constructor ()
      ensures Valid()
      ensures current == YearMonth(2025, 4)
      ensures reservations == [] && isLoadingReservations && fetchError == None
      ensures !isModalOpen && selectedDockForNewBooking == None && reservationToViewOrEdit == None
    {
      current := YearMonth(2025, 4);
      reservations := [];
      isLoadingReservations := true;
      fetchError := None;
      isModalOpen := false;
      selectedDockForNewBooking := None;
      reservationToViewOrEdit := None;
    }

    /** `fetchReservations` once the select has answered: rows replace the
        list, an error is recorded and keeps the old list. */
    method FetchReservations(answer: Store.Fetch<Reservation>)
      requires Valid()
      modifies this
      ensures Valid()
      ensures !isLoadingReservations
      ensures fetchError == (if answer.FetchFailed? then Some(answer.message) else None)
      ensures reservations == (if answer.Rows? then answer.rows else old(reservations))
      ensures current == old(current) && isModalOpen == old(isModalOpen)
      ensures selectedDockForNewBooking == old(selectedDockForNewBooking)
      ensures reservationToViewOrEdit == old(reservationToViewOrEdit)
    {
      isLoadingReservations := true;
      fetchError := None;
      match answer {
        case FetchFailed(message) =>
          fetchError := Some(message);
        case Rows(rows) =>
          reservations := rows;
        case NoData =>
      }
      isLoadingReservations := false;
    }

    /** Closes the dialog, forgets both contexts and reloads the list. */
    method HandleModalCloseAndRefresh(answer: Store.Fetch<Reservation>)
      requires Valid()
      modifies this
      ensures Valid()
      ensures !isModalOpen && selectedDockForNewBooking == None && reservationToViewOrEdit == None
      ensures !isLoadingReservations
      ensures fetchError == (if answer.FetchFailed? then Some(answer.message) else None)
      ensures reservations == (if answer.Rows? then answer.rows else old(reservations))
      ensures current == old(current)
    {
      isModalOpen := false;
      reservationToViewOrEdit := None;
      selectedDockForNewBooking := None;
      FetchReservations(answer);
    }

    method GoToPreviousMonth()
      requires Valid()
      modifies this`current
      ensures Valid()
      ensures current == PreviousMonth(old(current))
    {
      current := PreviousMonth(current);
    }

    method GoToNextMonth()
      requires Valid()
      modifies this`current
      ensures Valid()
      ensures current == NextMonth(old(current))
    {
      current := NextMonth(current);
    }

    /** Opens the dialog on a new booking; any reservation context is dropped. */
    method HandleOpenNewBookingModal(date: int, dockId: string)
      requires Valid()
      modifies this`selectedDockForNewBooking, this`reservationToViewOrEdit, this`isModalOpen
      ensures Valid()
      ensures isModalOpen
      ensures selectedDockForNewBooking == Some(NewBookingContext(date, dockId))
      ensures reservationToViewOrEdit == None
    {
      selectedDockForNewBooking := Some(NewBookingContext(date, dockId));
      reservationToViewOrEdit := None;
      isModalOpen := true;
    }

    /** Opens the dialog on an existing reservation; any new-booking context is dropped. */
    method HandleViewReservationDetails(reservation: Reservation)
      requires Valid()
      modifies this`selectedDockForNewBooking, this`reservationToViewOrEdit, this`isModalOpen
      ensures Valid()
      ensures isModalOpen
      ensures reservationToViewOrEdit == Some(reservation)
      ensures selectedDockForNewBooking == None
    {
      reservationToViewOrEdit := Some(reservation);
      selectedDockForNewBooking := None;
      isModalOpen := true;
    }

    /** A click on a slot of the day cell for `date`. */
    method HandleSlotClick(date: int, slot: Slot)
      requires Valid()
      modifies this`selectedDockForNewBooking, this`reservationToViewOrEdit, this`isModalOpen
      ensures Valid() && isModalOpen
      ensures slot.reservation.None? ==>
        selectedDockForNewBooking == Some(NewBookingContext(date, slot.dock)) && reservationToViewOrEdit == None
      ensures slot.reservation.Some? ==>
        reservationToViewOrEdit == slot.reservation && selectedDockForNewBooking == None
    {
      match SlotClick(date, slot) {
        case OpenNewBooking(context) =>
          HandleOpenNewBookingModal(context.date, context.dockId);
        case ViewReservation(r) =>
          HandleViewReservationDetails(r);
      }
    }
  }

}
