# Marina dock reservations, modelled in Dafny

This project models the core of a small marina management web app. Staff
see a month calendar of seven docks. Each dock is shown as a slot in every
day cell. Clicking a free slot opens the booking dialog for that dock and
day; clicking a booked slot opens that reservation, where it can be
viewed, edited or cancelled.

Before the dialog saves anything, it checks every day of the requested
range against the other reservations on the same dock, and refuses a
range that touches a day already taken. Two smaller pages keep local
copies of their tables and update them after each successful remote write:

- a waitlist, with a status editor and a details editor;
- a to-do list.

The model has these modules:

- `Text`: the string operations the pages rely on. These are JavaScript's
  `trim()` and ASCII `toLowerCase()`, and `x || fallback` on nullable
  strings.
- `Rows`: the two updates of a local table, filter-by-id and map-by-id.
- `Store`: the answers of the remote store. Each answer is a parameter of
  the handler that waits for it.
- `Dates`: day numbers. This covers normalising a timestamp to midnight,
  the date-fns operations (`addDays`, `isBefore`, `isValid`, `parseISO`,
  `format`) and stored `'YYYY-MM-DD'` columns.
- `Gregorian`: month lengths, day numbers, weekdays and month navigation,
  for the calendar grid.
- `Calendar`: the reservation record and the single-day lookup.
  It also holds the month grid, slot clicks, and the `MarinaCalendar` page
  state as a class.
- `Booking`: the form, the lookup that skips the reservation being edited,
  and the day-by-day conflict scan. It also holds the ordered checks of a
  submission as the function `Decide`, the `BookingModal` dialog state as a
  class, and the no-double-booking invariant.
- `Waitlist` and `Todos`: the two list pages as classes, over pure list
  transforms.

Dates are whole day numbers. A `Date` held by the form is a
`DateValue`: a day, or an Invalid Date. A date column read from the store
is a `DateText`: a well-formed `'YYYY-MM-DD'`, the empty string, or other
text. These behave differently:

- `createFormState` treats `''` as missing and falls back to the context
  date;
- a malformed string becomes an Invalid Date;
- the lookups never match a row with either one.

Reservation ids are a number or a string. As in JavaScript, `0` and `''`
are falsy ids.

`handleSubmit` in `src/features/booking/BookingModal.tsx` does not check
that a guest name is present, and neither does `Decide`.

## Model

| member | source | states |
|---|---|---|
| Text.IsBlank | src/features/waitlist/WaitlistPage.tsx:147 | `!s.trim()`: every character of the string is white space (definition; `Trim` is empty exactly on these strings) |
| Text.Trim | src/features/waitlist/WaitlistPage.tsx:147 | `trim()` is the slice of the input left between a blank prefix and a blank suffix; it is empty exactly when the string is all white space, and otherwise starts and ends with a non-space character |
| Text.TrimIdempotent | src/features/todos/TodoListPage.tsx:67 | trimming the already trimmed task changes nothing |
| Text.Lower | src/features/waitlist/WaitlistPage.tsx:75 | `toLowerCase()` keeps the length and lower-cases each ASCII letter in place |
| Text.LowerIdempotent | src/features/waitlist/WaitlistPage.tsx:75 | lower-casing twice is lower-casing once |
| Text.OrDefault | src/features/booking/BookingModal.tsx:35-42 | `x \|\| fallback` keeps a non-empty string and gives the fallback for null and for `''` |
| Rows.WithoutMembers | src/features/waitlist/WaitlistPage.tsx:177 | the filter keeps exactly the rows whose id differs from the deleted one |
| Rows.WithoutAppend | src/features/todos/TodoListPage.tsx:130 | the filter distributes over concatenation, so the kept rows keep their relative order |
| Rows.WithoutAbsent | src/features/todos/TodoListPage.tsx:130 | filtering out an id that no row has returns the list unchanged |
| Rows.Update | src/features/waitlist/WaitlistPage.tsx:200-204 | the map keeps the length and position of every row; rows with the id are transformed, all others are unchanged |
| Dates.NormalizeToMidnight | src/features/calendar/MarinaCalendar.tsx:27-31 | the result is a whole-day timestamp no later than the input and less than a day before it, that is, midnight of the input's day |
| Dates.NormalizeIdempotent | src/features/booking/BookingModal.tsx:55-59 | normalising a normalised timestamp changes nothing |
| Dates.NormalizedOrder | src/features/calendar/MarinaCalendar.tsx:34-39 | normalised timestamps are equal, and ordered, exactly as their day numbers are, so comparing them compares days |
| Dates.IsValid | src/features/booking/BookingModal.tsx:154 | `isValid(d)`: the date holds a day rather than an Invalid Date (definition) |
| Dates.IsBefore | src/features/booking/BookingModal.tsx:126 | `isBefore(a, b)`: both dates are valid and `a`'s day is earlier; an Invalid Date is never before or after anything (definition) |
| Dates.AddDays | src/features/booking/BookingModal.tsx:51 | `addDays(d, n)` is valid exactly when `d` is, and then lies `n` days after it |
| Dates.StoredDay | src/features/calendar/MarinaCalendar.tsx:37-38 | a stored date column gives a day exactly when it is well formed, and then its own day; anything else is NaN |
| Dates.ParseIso | src/features/booking/BookingModal.tsx:43-44 | `parseISO` gives a valid date exactly for a well-formed column, on that column's day |
| Dates.FormatIso | src/features/booking/BookingModal.tsx:183-184 | a day written out with `format(..., 'yyyy-MM-dd')` parses and reads back as the same day |
| Gregorian.YearLength | src/features/calendar/MarinaCalendar.tsx:102 | a year has 365 or 366 days |
| Gregorian.DaysInMonth | src/features/calendar/MarinaCalendar.tsx:102 | `new Date(year, month + 1, 0).getDate()` lies between 28 and 31, and is 29 exactly for February of a leap year |
| Gregorian.MonthsFillYear | src/features/calendar/MarinaCalendar.tsx:102 | the twelve month lengths add up to the year's length |
| Gregorian.LeapYearsStep | src/features/calendar/MarinaCalendar.tsx:103 | the leap-year count grows by one after a year exactly when that year is a leap year |
| Gregorian.DayNumber | src/features/calendar/MarinaCalendar.tsx:103 | `new Date(y, m, d)` as a day number: the days of the earlier years, then of the earlier months, then `d - 1` (definition; `YearStep`, `FirstOfNextMonth` and `NextMonthWeekday` state its properties) |
| Gregorian.YearStep | src/features/calendar/MarinaCalendar.tsx:103 | consecutive New Year's days are one year length apart in day numbers |
| Gregorian.Weekday | src/features/calendar/MarinaCalendar.tsx:103 | `getDay()` is between 0 (Sunday) and 6 |
| Gregorian.FirstWeekday | src/features/calendar/MarinaCalendar.tsx:103 | `firstDayOfMonth` is between 0 and 6, the number of blank cells before day 1 |
| Gregorian.NextMonth | src/features/calendar/MarinaCalendar.tsx:83 | `setMonth(getMonth() + 1)` gives a valid month one month later, rolling December over into January of the next year |
| Gregorian.PreviousMonth | src/features/calendar/MarinaCalendar.tsx:82 | `setMonth(getMonth() - 1)` gives a valid month one month earlier, and going forward from it returns to the start |
| Gregorian.BackAfterForward | src/features/calendar/MarinaCalendar.tsx:82-83 | going one month forward and then one back returns to the same month |
| Gregorian.FirstOfNextMonth | src/features/calendar/MarinaCalendar.tsx:102-103 | the first of next month is the day after the last of this month, so day 0 of next month is this month's last day |
| Gregorian.NextMonthWeekday | src/features/calendar/MarinaCalendar.tsx:102-103 | next month's first weekday is this month's first weekday plus its length, modulo 7, so consecutive grids fit together |
| Gregorian.OpeningMonth | src/features/calendar/MarinaCalendar.tsx:48 | May 2025, where the calendar opens, starts on a Thursday and has 31 days |
| Calendar.Covers | src/features/calendar/MarinaCalendar.tsx:37-39 | a reservation covers a day exactly when both stored dates are well formed and the day lies between them, ends included; a blank or malformed column covers no day |
| Calendar.FirstOnDock | src/features/calendar/MarinaCalendar.tsx:33-45 | the lookup finds nothing exactly when no reservation on the dock covers the day; what it finds is in the list, on the dock and covers the day |
| Calendar.SingleReservationMembership | src/features/calendar/MarinaCalendar.tsx:33-45 | a lone reservation is found on every day from its start to its end, both ends included, and on no other day |
| Calendar.ReservationForDockOnDate | src/features/calendar/MarinaCalendar.tsx:33-45 | the early-return loop returns what `FirstOnDock` specifies |
| Calendar.DaySlots | src/features/calendar/MarinaCalendar.tsx:116-117 | a day cell has one slot per dock label, in label order, each holding that dock's lookup result for the day |
| Calendar.DayCells | src/features/calendar/MarinaCalendar.tsx:105-146 | the grid is `firstDayOfMonth` blank cells, then one cell for each day 1..`numberOfDaysInMonth` in order, each on its own date and with its slots |
| Calendar.SlotClick | src/features/calendar/MarinaCalendar.tsx:126-132 | a free slot opens a new booking for exactly its day and dock; a booked slot opens the reservation it shows |
| Calendar.GridClick | src/features/calendar/MarinaCalendar.tsx:116-132 | clicking a grid slot opens a new booking exactly when no reservation on that dock covers the day, and otherwise opens a covering reservation on that dock |
| Calendar.MarinaCalendar.constructor | src/features/calendar/MarinaCalendar.tsx:48-55 | the page opens on May 2025, loading, with no reservations and the dialog closed |
| Calendar.MarinaCalendar.FetchReservations | src/features/calendar/MarinaCalendar.tsx:57-68 | loading ends; rows replace the list; an error is recorded and keeps the old list; no data keeps the list; nothing else changes |
| Calendar.MarinaCalendar.HandleModalCloseAndRefresh | src/features/calendar/MarinaCalendar.tsx:74-79 | the dialog closes, both contexts are cleared and the list is reloaded |
| Calendar.MarinaCalendar.GoToPreviousMonth | src/features/calendar/MarinaCalendar.tsx:82 | the shown month becomes the previous month |
| Calendar.MarinaCalendar.GoToNextMonth | src/features/calendar/MarinaCalendar.tsx:83 | the shown month becomes the next month |
| Calendar.MarinaCalendar.HandleOpenNewBookingModal | src/features/calendar/MarinaCalendar.tsx:85-89 | the dialog opens on the clicked day and dock, and any reservation context is dropped |
| Calendar.MarinaCalendar.HandleViewReservationDetails | src/features/calendar/MarinaCalendar.tsx:91-95 | the dialog opens on the reservation, and any new-booking context is dropped |
| Calendar.MarinaCalendar.HandleSlotClick | src/features/calendar/MarinaCalendar.tsx:126-132 | a click opens the dialog in the mode `SlotClick` chooses, keeping the page invariant that exactly one context is set while the dialog is open |
| Booking.CreateFormState | src/features/booking/BookingModal.tsx:32-53 | a new booking gets empty fields, 'Not Paid Yet', the context day (or today when there is no valid context) and an end one day later; an existing reservation's form copies its fields, with null and `''` giving `''` and the payment status defaulting to 'Not Paid Yet', and copies its parsed dates, an unparseable date giving an Invalid Date and a blank one the context day (or today), with the end one day after it |
| Booking.DateChanged | src/features/booking/BookingModal.tsx:122-132 | an absent or invalid pick changes nothing; a new end is taken as is; a new start moves the end only if the end was before it, and then to the day after; the form's other fields never change |
| Booking.Eligible | src/features/booking/BookingModal.tsx:69 | a reservation is a candidate when it is on the dock and, if an id is excluded, has another id (definition) |
| Booking.FirstOccupant | src/features/booking/BookingModal.tsx:61-78 | the lookup finds nothing exactly when no reservation on the dock, other than the excluded id, covers the day; what it finds is such a reservation |
| Booking.FirstOccupantIsEarliest | src/features/booking/BookingModal.tsx:68-74 | the reservation found is the first in list order that occupies the day |
| Booking.NoExclusionIsCalendarLookup | src/features/booking/BookingModal.tsx:61-78 | without an exclusion id the dialog's lookup is the calendar's lookup |
| Booking.ExclusionIsFiltering | src/features/booking/BookingModal.tsx:69 | excluding an id is the calendar's lookup over the list with that id filtered out |
| Booking.ExcludedNeverReported | src/features/booking/BookingModal.tsx:69 | the excluded reservation itself is never reported |
| Booking.ReservationOnDateExcludingCurrent | src/features/booking/BookingModal.tsx:61-78 | the early-return loop returns what `FirstOccupant` specifies |
| Booking.ScanFrom | src/features/booking/BookingModal.tsx:155-168 | the scan reports the first day of the range with an occupant, together with that occupant, and all earlier days of the range are free; it reports nothing exactly when every day is free |
| Booking.ScanNoneIff | src/features/booking/BookingModal.tsx:155-168 | the scan over the days finds nothing exactly when no eligible reservation shares a day with the range |
| Booking.MeetsRange | src/features/booking/BookingModal.tsx:155-168 | a reservation with well-formed dates, in order, meets a range that is in order when the two intervals overlap (definition; `MeetsRangeIsOverlap` and `ScanNoneIff` tie it to the day-by-day scan) |
| Booking.MeetsRangeIsOverlap | src/features/booking/BookingModal.tsx:155-168 | for well-formed ranges, sharing a day is the overlap test `start <= candidateEnd && end >= candidateStart` |
| Booking.ConflictDayIsEarliest | src/features/booking/BookingModal.tsx:156-166 | the reported day is the candidate start or the reported reservation's start, and no meeting reservation blocks an earlier day of the range |
| Booking.FindConflict | src/features/booking/BookingModal.tsx:154-168 | the loop over `eachDayOfInterval` returns what `ScanFrom` specifies |
| Booking.FieldsOf | src/features/booking/BookingModal.tsx:181-192 | the payload carries all ten columns of the form: the two dates as their day numbers, and guest name, boat type, length and width, email, phone number, payment status and notes as typed |
| Booking.CallOf | src/features/booking/BookingModal.tsx:194-224 | only an insert or an update decision reaches the store, with exactly its dock or id and its payload |
| Booking.OperationDock | src/features/booking/BookingModal.tsx:147 | the dock is the reservation's non-empty dock, else the clicked non-empty dock, else none |
| Booking.IsFalsyId | src/features/booking/BookingModal.tsx:176 | `!existingReservation.id`: the id is the number 0 or the empty string (definition) |
| Booking.ExcludedId | src/features/booking/BookingModal.tsx:161 | the excluded id is the edited reservation's id, and there is none for a new booking |
| Booking.Decide | src/features/booking/BookingModal.tsx:141-238 | the checks run in the code's order, each rejection exactly when its check is the first to fail (end before start, missing dock, invalid dates, date conflict, then a falsy reservation id in edit mode); a conflict reports the operation dock, the first occupied day of the range and that day's occupant's guest name; an insert happens only for a new booking on the operation dock, an update only in edit mode with the reservation's id, which is never falsy, and a close alone only in view mode; a write carries the form's payload |
| Booking.PersistOnlyWhenFree | src/features/booking/BookingModal.tsx:141-173 | a write only happens with valid dates, start no later than end, and no other reservation on the dock sharing a day with the range |
| Booking.EditNeverConflictsWithItself | src/features/booking/BookingModal.tsx:161 | editing a reservation never conflicts with that reservation itself |
| Booking.OtherDocksNeverConflict | src/features/booking/BookingModal.tsx:69 | reservations on other docks never conflict |
| Booking.Examples | src/features/booking/BookingModal.tsx:155-168 | next to a stay from day d to day d+2: the range d+2..d+4 conflicts on d+2, d+3..d+5 is free, editing the stay itself to d..d+3 is free, and the single day d+2 conflicts |
| Booking.Inserted | src/features/booking/BookingModal.tsx:209-224 | the inserted row has the new id, the operation dock and the form's guest name, and covers exactly the days of the form's range |
| Booking.Applied | src/features/booking/BookingModal.tsx:181-198 | an update keeps the id and the dock of the reservation, takes the form's guest name, and covers exactly the days of the form's range |
| Booking.OverlapIsCommonDay | src/features/booking/BookingModal.tsx:155-168 | two reservations overlap exactly when some day is covered by both |
| Booking.InsertKeepsDocksExclusive | src/features/booking/BookingModal.tsx:209-224 | with no other writer in between, an accepted insert keeps every dock free of double bookings |
| Booking.UpdateKeepsDocksExclusive | src/features/booking/BookingModal.tsx:175-198 | with no other writer in between and unique ids, an accepted update keeps every dock free of double bookings |
| Booking.UnchangedEditRoundTrip | src/features/booking/BookingModal.tsx:32-45 | saving an edit form that was filled from a reservation and left as it was writes the reservation back unchanged, when its dates parse, no column is null and its payment status is not `''` |
| Booking.FreshFormPassesDateChecks | src/features/booking/BookingModal.tsx:47-52 | a fresh new-booking form has valid dates and does not end before it starts, so it passes the first and third checks of a submission |
| Booking.BookingModal.Mode | src/features/booking/BookingModal.tsx:95 | the dialog is a new booking exactly without a reservation, and in edit mode exactly with a reservation and `isEditing` |
| Booking.BookingModal.constructor | src/features/booking/BookingModal.tsx:88-111 | the opened dialog's form is the reservation's form, or the new-booking form on the clicked day; nothing is submitting, there is no error and editing is off |
| Booking.BookingModal.HandleDateChange | src/features/booking/BookingModal.tsx:122-132 | the form becomes `DateChanged` of the old form |
| Booking.BookingModal.HandleSubmit | src/features/booking/BookingModal.tsx:134-239 | the store receives exactly `Decide`'s call; a rejection records its error; a failed write records the insert or update failure; a successful write refreshes and closes, and an update also leaves edit mode; view mode only closes; submitting always ends |
| Booking.BookingModal.HandleCancelReservation | src/features/booking/BookingModal.tsx:262-284 | a missing or falsy id gives 'No reservation selected to cancel.' with no call; a declined prompt changes nothing; otherwise a delete of that id follows, which refreshes and closes on success and records the failure otherwise |
| Booking.BookingModal.HandleEditClick | src/features/booking/BookingModal.tsx:247-251 | editing is switched on |
| Booking.BookingModal.HandleCancelEditClick | src/features/booking/BookingModal.tsx:253-260 | editing is switched off, the form is refilled from the reservation, and the error is cleared |
| Booking.BookingModal.HandleCloseDialog | src/features/booking/BookingModal.tsx:241-245 | editing is switched off and the dialog asks to close |
| Waitlist.NewEntry | src/features/waitlist/WaitlistPage.tsx:153 | the inserted row is the form as typed, with the page's type and the status 'Waiting' |
| Waitlist.EditFormOf | src/features/waitlist/WaitlistPage.tsx:213-225 | the details form copies each entry field, with null giving `''` for every nullable field; a null or empty vessel type gives 'Boat', so the vessel type is never `''` |
| Waitlist.MergeDetails | src/features/waitlist/WaitlistPage.tsx:251 | a details update keeps id, creation time, type and status; reopening the editor on the result gives back the saved form exactly when its vessel type is not `''` |
| Waitlist.UnchangedDetailsRoundTrip | src/features/waitlist/WaitlistPage.tsx:213-251 | saving the details form as it was opened gives back the entry, when no column was null and its vessel type was not `''` |
| Waitlist.WithoutEntry | src/features/waitlist/WaitlistPage.tsx:177 | a delete keeps exactly the entries with another id |
| Waitlist.DeleteKeepsOrder | src/features/waitlist/WaitlistPage.tsx:177 | a delete keeps the remaining entries in their order |
| Waitlist.DeleteAbsent | src/features/waitlist/WaitlistPage.tsx:177 | deleting an id that no entry has changes nothing |
| Waitlist.WithStatus | src/features/waitlist/WaitlistPage.tsx:200-204 | a status update changes the status of the entries with the id and nothing else |
| Waitlist.WithDetails | src/features/waitlist/WaitlistPage.tsx:249-253 | a details update changes only the entries with the id, each by `MergeDetails` |
| Waitlist.DetailsKeepBookkeeping | src/features/waitlist/WaitlistPage.tsx:251 | after a details update every entry keeps its id, creation time, type and status |
| Waitlist.StatusUpdateIdempotent | src/features/waitlist/WaitlistPage.tsx:200-204 | setting a status twice is setting it once, and setting the status entries already have changes nothing |
| Waitlist.ColorOfKey | src/features/waitlist/WaitlistPage.tsx:75-83 | a lower-cased status gets a non-default colour exactly when it is one of the seven keys, and the orange colour exactly for 'contacted' and 'offer made' |
| Waitlist.ColorOf | src/features/waitlist/WaitlistPage.tsx:74-84 | `getStatusColorClass` picks a non-default colour exactly when the lower-cased status is one of the seven keys, and the orange colour exactly for 'contacted' and 'offer made' |
| Waitlist.StatusColorClass | src/features/waitlist/WaitlistPage.tsx:74-84 | the CSS class is the class of the status's colour (definition; the colour carries the properties) |
| Waitlist.StatusColorCaseInsensitive | src/features/waitlist/WaitlistPage.tsx:75 | the colour of a status is the colour of its lower-cased form |
| Waitlist.KeyColors | src/features/waitlist/WaitlistPage.tsx:76-81 | every key has a non-default colour; 'contacted' and 'offer made' share one, and every other pair differs |
| Waitlist.UnlistedStatusIsDefault | src/features/waitlist/WaitlistPage.tsx:82 | a status that lower-cases to none of the keys gets the default colour |
| Waitlist.Busy | src/features/waitlist/WaitlistPage.tsx:189 | `if (processingEntryId)`: an entry is in progress and its id is not 0, which JavaScript treats as false (definition) |
| Waitlist.WaitlistPage.constructor | src/features/waitlist/WaitlistPage.tsx:87-103 | the page starts with both forms initial, no entries, loading, nothing in progress and both editors closed |
| Waitlist.WaitlistPage.FetchEntries | src/features/waitlist/WaitlistPage.tsx:105-119 | loading ends; rows replace the list; an error is recorded and keeps the list |
| Waitlist.WaitlistPage.Load | src/features/waitlist/WaitlistPage.tsx:121-125 | a page without a type never fetches; otherwise it fetches |
| Waitlist.WaitlistPage.HandleAddEntry | src/features/waitlist/WaitlistPage.tsx:145-163 | a blank name gives 'Name is required.' and no insert; otherwise `NewEntry` is inserted, a failure is reported with the form kept, and a success resets the form and reloads the list |
| Waitlist.WaitlistPage.HandleDeleteEntry | src/features/waitlist/WaitlistPage.tsx:165-179 | a delete of the id in progress, or a declined prompt, changes nothing; otherwise the delete is sent, processing ends, and a success removes the entries with the id |
| Waitlist.WaitlistPage.HandleOpenStatusEditor | src/features/waitlist/WaitlistPage.tsx:181-186 | the editor opens on the entry with its current status selected, and the notice is cleared |
| Waitlist.WaitlistPage.SelectNewStatus | src/features/waitlist/WaitlistPage.tsx:100 | the picked status becomes the selected status |
| Waitlist.WaitlistPage.HandleConfirmStatusUpdate | src/features/waitlist/WaitlistPage.tsx:188-209 | without an entry or a status, or while any entry is busy (an id of 0 does not count), nothing happens; otherwise the update is sent, a success changes that entry's status and closes the editor, a failure is reported, and busy ends |
| Waitlist.WaitlistPage.HandleOpenEditDetailsModal | src/features/waitlist/WaitlistPage.tsx:211-228 | the details editor opens on the entry with the form `EditFormOf(entry)` |
| Waitlist.WaitlistPage.HandleConfirmDetailsUpdate | src/features/waitlist/WaitlistPage.tsx:230-258 | a missing entry or blank name gives 'Name is required for editing.'; a busy page ignores the click; otherwise the update is sent, a success merges the form into that entry and closes the editor, a failure is reported, and busy ends |
| Todos.WithCompleted | src/features/todos/TodoListPage.tsx:99-103 | a toggle sets `is_completed` on the todos with the id and changes nothing else |
| Todos.WithoutTodo | src/features/todos/TodoListPage.tsx:130 | a delete keeps exactly the todos with another id |
| Todos.ToggleTwiceRestores | src/features/todos/TodoListPage.tsx:99-103 | toggling away from the current status and back restores the list |
| Todos.ToggleTouchesOnlyStatus | src/features/todos/TodoListPage.tsx:101 | a toggle keeps every id, task and creation time, and changes only the status of the matching rows |
| Todos.DeleteKeepsOrder | src/features/todos/TodoListPage.tsx:130 | a delete keeps the remaining todos in their order |
| Todos.DeleteAbsent | src/features/todos/TodoListPage.tsx:130 | deleting an id that no todo has changes nothing |
| Todos.TodoListPage.constructor | src/features/todos/TodoListPage.tsx:20-28 | the page starts empty, loading, with nothing in progress |
| Todos.TodoListPage.FetchTodos | src/features/todos/TodoListPage.tsx:31-48 | loading ends; rows replace the list; an error is recorded and keeps the list |
| Todos.TodoListPage.HandleInputChange | src/features/todos/TodoListPage.tsx:55-57 | the typed text becomes the new task text |
| Todos.TodoListPage.HandleAddTask | src/features/todos/TodoListPage.tsx:59-79 | a blank task gives 'Task cannot be empty.' and no insert; otherwise the trimmed task is inserted as not completed, a failure is reported with the text kept, and a success clears the input and reloads the list |
| Todos.TodoListPage.HandleToggleComplete | src/features/todos/TodoListPage.tsx:81-105 | a row that is updating or deleting is ignored; otherwise the negated status is sent, updating ends, a success applies it to the list and a failure leaves the list and raises an alert |
| Todos.TodoListPage.HandleDeleteTodo | src/features/todos/TodoListPage.tsx:107-132 | a row that is deleting or updating, or a declined prompt, is ignored; otherwise the delete is sent, deleting ends, a success removes the todos with the id and a failure leaves the list and raises an alert |

## Left out

- The remote store (Supabase) is not modelled. Each handler takes the store's answer as a parameter, and the call it makes is returned as a value. `src/lib/supabaseClient.ts` is not part of this model.
- Awaiting and interleaving are left out. A handler runs from start to end with its answers already known. A reload started without `await` (after an add, or after a booking dialog closes) is applied at once. Races between two clicks, between two tabs, or with other clients are not modelled. The no-double-booking lemmas assume that nothing else writes between the check and the write.
- `Booking.BookingModal.HandleSubmit`, booking success: `onBookingSuccess` and `onClose` are the same handler on the calendar page, so a successful write reloads twice. The model returns the two flags and reloads once.
- Time zones and time of day are left out. The lookups build stored dates in UTC (`+ "T00:00:00Z"`) but normalise them to local midnight. West of UTC this can move a stored day one day earlier. The model places every date in one reference time zone and works on whole days. For the same reason, the time of day in `new Date()` (the default start of a new booking) is dropped.
- `Gregorian.DayNumber`: the two-digit-year mapping of `new Date(y, m, d)` for years 0 to 99 is not modelled. Years are taken as written.
- `Text.Lower`: `toLowerCase()` is modelled on ASCII letters only. Unicode case mapping beyond ASCII is left out.
- `Waitlist.KeyColors`: the colours are proved for the seven lower-case keys of the switch. The fact that each title-case status option lower-cases to its key is not proved, because reasoning about long string literals one character at a time is too costly for the verifier.
- `Waitlist.StatusColorClass` is stated through the colour datatype `StatusColor`. Its CSS class strings are constants and carry no properties.
- Error and success messages are kept as structured values: the kinds and the names and messages they embed. The exact text, the `format(day, "PPP")` day in the conflict message, and the store-error prefixes are not modelled.
- `window.confirm` is a `confirmed` boolean parameter, and `alert` is an `alert` result. `console` logging is left out.
- JSX rendering, CSS and the loading and error render branches are left out, as are the month name, the weekday headers, and which buttons are disabled while submitting. These include the waitlist dialogs' `onOpenChange` closing.
- The generic form-field handlers are not modelled separately. These are `handleChange` and `handlePaymentStatusChange` in the booking dialog, and `handleAddFormChange`, `handleAddFormSelectChange`, `handleEditFormChange` and `handleEditFormSelectChange` on the waitlist page. They set one field of a form datatype; the model takes the resulting form as the state.
- The `created_at` timestamp of reservations is dropped. The waitlist fetch orders by `created_at` ascending and the to-do fetch by descending; that ordering is done by the store and is taken as given in the fetched rows.
- `src/App.tsx`, `src/features/core/LandingPage.tsx` and `vite.config.ts` (routing, the landing page, build setup) are not part of this model.
