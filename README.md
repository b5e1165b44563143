# Salon scheduler: booking and availability engine

This project models the client-side booking and availability engine of a small
salon scheduler (a React front end over a REST back end). Clients request
appointments for a service on a date and at one of nine fixed time labels. An
administrator approves or rejects requests, blocks whole days and disables
time labels. A client may cancel a pending or approved appointment while it is
still in the future.

The modules follow the front end's components:

- `Types` (`types.dfy`): the records of `frontend/src/types.ts`. These are the
  appointment, the service, the notification and the (date, time) slot. An
  appointment's status is kept as text, since nothing checks what the server
  sends. The four status names form an enumeration beside it.
- `Strings` and `Lists` (`strings.dfy`, `lists.dfy`): the pieces of
  JavaScript's library the components use, over `seq<char>` and `seq`. These
  are decimal printing and reading, `padStart(2, '0')`, one-character `split`,
  `trim`, ASCII `toLowerCase`, `filter` and `find`.
- `Booking` (`booking.dfy`): the booking form. It covers the time-label
  catalog, `convertTo24Hour`, which labels are unavailable on the selected
  date, when the form may be submitted, and the record it submits.
- `App` (`app.dfy`): the top-level component. Its state is a `Session` class
  whose methods are the handlers. Each handler assigns the session fields
  that its `setState` calls set. The booking, approval and rejection
  handlers assign both the appointments and the notifications. Beside the
  class are the derived `bookedSlots` list and the pure updates the handlers
  apply.
- `Dashboard` (`dashboard.dfy`): the administrator's view. It covers the
  per-status counts, calendar day keys, the month grid (day arithmetic of
  ECMA-262), the actions offered per appointment, the reject dialog and
  price editing. Price saving is a loop over the entries in ascending key
  order.
- `ClientPortal` (`client_portal.dfy`): the client's own list, the one-day
  cancellation rule, the Spanish status labels and the cancel dialog.

Outside inputs are parameters:
- Every call to the server is a parameter: `remoteOk`, or the fetched list as
  an `Option`. A call that throws leaves the state as the handler's `catch`
  finds it.
- The clock is a parameter: `stamp` for `Date.now()`, `when` for the
  locale-formatted text, and integer milliseconds for instants.
- The parse of a date text is a parameter too.

Where the code and the documented design differ, the model follows the code:

- The design says a blocked date makes the whole day unbookable. In the code,
  `isDateBlocked` only disables the date input
  (`frontend/src/components/BookAppointment.tsx:200`). Neither
  `isTimeUnavailable` (lines 51-65) nor `isFormValid` (lines 111-112) consults
  the blocked dates. So `Booking.IsTimeUnavailable` and `Booking.IsFormValid`
  do not take them as input.
- The design speaks of terminal states. The code lets any record be approved,
  rejected or cancelled whatever its status. So the handlers here have no
  status precondition.
- Cancelling (`App.tsx:306-345`) sends the new status to the server but does
  not update the local list. `App.Session.CancelAppointment` therefore leaves
  `appointments` unchanged.
- Calendar years 0 to 99 stand for 1900 to 1999, as the `Date` constructor
  rule requires. So February of year 0 has 28 days
  (`Dashboard.FebruaryYearZero`).

## Model

| member | source | states |
|---|---|---|
| Strings.DigitsValueOfNatToString | frontend/src/components/BookAppointment.tsx:80-82 | reading back the decimal text of a number gives the number |
| Strings.NatToStringInjective | frontend/src/components/BookAppointment.tsx:80-82 | distinct non-negative numbers print as distinct texts |
| Strings.IntToStringInjective | frontend/src/components/Dashboard.tsx:65 | distinct integers, sign included, print as distinct texts |
| Strings.TwoDigits | frontend/src/components/BookAppointment.tsx:80-82 | below 100, `toString().padStart(2, '0')` is exactly the tens digit then the units digit |
| Strings.Pad2Value | frontend/src/components/BookAppointment.tsx:80-82 | the zero-padded text is all digits and reads back as the number |
| Strings.PadStart2 | frontend/src/components/BookAppointment.tsx:80-82 | the result has length 2 or the input's, ends with the input, and is preceded only by zeros |
| Strings.Split | frontend/src/components/BookAppointment.tsx:70-71 | `split` on one character gives at least one piece and no piece contains the separator |
| Strings.JoinSplit | frontend/src/components/BookAppointment.tsx:70-71 | joining the pieces of a split with the separator gives the original text |
| Strings.SplitJoin | frontend/src/components/BookAppointment.tsx:70-71 | splitting pieces joined by a separator they do not contain gives the pieces back |
| Strings.BeforeFirst | frontend/src/App.tsx:382 | `split('T')[0]` is a prefix without 'T', followed by a 'T' when shorter than the text |
| Strings.Trim | frontend/src/components/Dashboard.tsx:91 | `trim()` is empty exactly when every character is a space or line terminator, and is no longer than the input |
| Strings.TrimEnds | frontend/src/components/Dashboard.tsx:80 | a non-empty trimmed text starts and ends with a non-space |
| Strings.LowerWithoutCapitals | frontend/src/App.tsx:378 | a text without capitals A-Z is its own `toLowerCase()` |
| Lists.FilterMembers | frontend/src/App.tsx:376-380 | an element is kept by `filter` exactly when it occurs in the input and passes the test |
| Lists.FilterMultiplicity | frontend/src/App.tsx:376-380 | a kept element occurs as often as in the input, a dropped one not at all |
| Lists.FilterConcat | frontend/src/App.tsx:376-380 | filtering a concatenation filters the parts and keeps their order |
| Lists.FilterKeepsAll | frontend/src/App.tsx:376-380 | a filter every element passes returns the input itself |
| Lists.FirstIndex | frontend/src/App.tsx:231 | `find` stops at the first element that passes, or finds none when none passes |
| Booking.AdjustHours | frontend/src/components/BookAppointment.tsx:73-78 | a 12-hour hour (1 to 12) goes to 0-11 with AM and to 12-23 with PM; with any other modifier the hour is kept |
| Booking.Format24 | frontend/src/components/BookAppointment.tsx:80-82 | no contract of its own; `Format24Shape` gives its exact eight characters for hours and minutes below 100 |
| Booking.ConvertTo24Hour | frontend/src/components/BookAppointment.tsx:69-83 | a text with neither a space nor ':' gives no result (the source throws); `ConvertLabel` gives the value for every label of the form `H:MM MOD` |
| Booking.ConvertLabel | frontend/src/components/BookAppointment.tsx:69-83 | a label `H:MM MOD` converts to `HH:MM:00`: PM other than 12 adds 12, 12 AM gives 0, other hours and the minutes are kept |
| Booking.Format24Shape | frontend/src/components/BookAppointment.tsx:80-82 | for hours and minutes below 100 the converted time is the eight characters `HH:MM:00` |
| Booking.CatalogConversions | frontend/src/components/BookAppointment.tsx:27-30 | each of the nine catalog labels converts to its 24-hour form (09:00:00 to 12:00:00, then 14:00:00 to 18:00:00) |
| Booking.CatalogInjective | frontend/src/components/BookAppointment.tsx:27-30 | distinct catalog labels convert to distinct stored times, so a booked slot blocks exactly one label |
| Booking.MidnightConversion | frontend/src/components/BookAppointment.tsx:76-78 | `12:00 AM` converts to `00:00:00` |
| Booking.SlotTaken | frontend/src/components/BookAppointment.tsx:60-64 | the `some` over booked slots holds exactly when the (date, 24-hour time) pair is among them |
| Booking.IsDateBlocked | frontend/src/components/BookAppointment.tsx:44-46 | no contract of its own; membership of the date in the blocked dates, the test `Dashboard.IsDayBlocked` shares |
| Booking.IsTimeUnavailable | frontend/src/components/BookAppointment.tsx:51-65 | no date selected: nothing is unavailable; a disabled label is unavailable; any other label is unavailable exactly when its slot on the selected date is booked |
| Booking.IsFormValid | frontend/src/components/BookAppointment.tsx:111-112 | the form is valid exactly when date, time, name, phone and email are non-empty and a non-zero service id is selected |
| Booking.ServiceName | frontend/src/components/BookAppointment.tsx:91 | the name of the first service with the selected id, or empty when none is selected or none matches |
| Booking.SubmittedRecord | frontend/src/components/BookAppointment.tsx:89-97 | the record exists exactly when the selected time converts; it is pending, holds the converted time, the looked-up service name and the form's fields |
| Booking.ValidFormSubmits | frontend/src/components/BookAppointment.tsx:89-97 | a valid form with a catalog label submits a pending record at that label's stored time with all contact fields filled in |
| App.SlotOf | frontend/src/App.tsx:381-384 | a booked slot's date is the record's date up to the first 'T' (a prefix with no 'T'), and its time is the record's time |
| App.IsActive | frontend/src/App.tsx:377-380 | no contract of its own; `ActiveStatus` and `InactiveStatus` give its value on the four status names |
| App.BookedSlots | frontend/src/App.tsx:376-384 | there are no more booked slots than appointments |
| App.BookedSlotsFilterMap | frontend/src/App.tsx:376-384 | the booked slots are the slots of the records whose lower-cased status is approved or pending, in list order |
| App.BookedSlotsMembers | frontend/src/App.tsx:376-384 | a slot is booked exactly when some active record occupies it |
| App.InactiveOccupiesNothing | frontend/src/App.tsx:377-380 | adding a record that is not active, at either end, books nothing |
| App.BookedSlotsConcat | frontend/src/App.tsx:376-384 | the booked slots of a concatenation are those of each part, in order |
| App.Toggle | frontend/src/App.tsx:361-371 | no contract of its own; `ToggleMembership` and `ToggleTwice` state its effect (the same update as App.tsx:58-70) |
| App.ToggleMembership | frontend/src/App.tsx:361-371 | after a toggle the entry is present exactly when it was absent, once if added, never if removed; every other entry keeps its count |
| App.ToggleTwice | frontend/src/App.tsx:361-371 | toggling an absent entry twice gives the original list |
| App.SetStatusById | frontend/src/App.tsx:225-229 | records with the id get the new status and change nothing else; other records are unchanged; the length is kept |
| App.SetStatusIdempotent | frontend/src/App.tsx:225-229 | setting the same status twice equals setting it once |
| App.SetStatusTail | frontend/src/App.tsx:225-229 | the status update acts record by record, so it commutes with dropping the first record |
| App.ApproveKeepsBookedSlots | frontend/src/App.tsx:225-229 | approving records that are already active leaves the booked slots unchanged |
| App.ActiveStatus | frontend/src/App.tsx:377-380 | a record whose status is exactly `approved` or `pending` is active |
| App.InactiveStatus | frontend/src/App.tsx:377-380 | a record whose status is exactly `rejected` or `cancelled` is not active |
| App.RejectBookedSlots | frontend/src/App.tsx:264-268 | after a rejection the booked slots are those of the active records with a different id |
| App.RejectFreesSlot | frontend/src/App.tsx:264-268 | after a rejection a non-disabled label on a date is available again unless another active record holds that slot |
| App.SetPrice | frontend/src/App.tsx:349-358 | ids and names are kept; services with the matching numeric id get the new price; all others are unchanged |
| App.StringIdChangesNothing | frontend/src/App.tsx:354 | a string id, even a numeric-looking one, never equals a numeric service id, so no price changes |
| App.FindById | frontend/src/App.tsx:231 | none exactly when no record has the id; otherwise the first record with the id |
| App.PrependIfFound | frontend/src/App.tsx:231-247 | a found record puts its notification at the front of the list; not finding one leaves the list unchanged |
| App.SampleNotification | frontend/src/App.tsx:106-114 | no contract of its own; the pending sample notice with id "1" and no details, which the session starts with |
| App.BookedNotification | frontend/src/App.tsx:190-206 | no contract of its own; a pending notice stamped with the clock, carrying the request's service, date and time |
| App.ApprovedNotification | frontend/src/App.tsx:234-245 | no contract of its own; an approved notice carrying the found record's service, date and time |
| App.RejectedNotification | frontend/src/App.tsx:275-292 | no contract of its own; a rejected notice carrying the record's details and the reason, if any |
| App.CancelledNotification | frontend/src/App.tsx:319-335 | no contract of its own; a cancelled notice carrying the record's details |
| App.RegisterKeepsEmailsDistinct | frontend/src/App.tsx:155-170 | appending a client whose email is unused keeps the emails distinct |
| App.EmailTaken | frontend/src/App.tsx:157 | no contract of its own; the `some` over registered emails that `Session.Register` refuses on |
| App.Session.constructor | frontend/src/App.tsx:28-116 | the session starts empty except for the six default services and the one sample notification, with no client signed in |
| App.Session.LoadAppointments | frontend/src/App.tsx:118-125 | the fetched list replaces the appointments |
| App.Session.LoadBlockedDates | frontend/src/App.tsx:38-50 | the fetched dates replace the blocked dates; a failed fetch keeps them |
| App.Session.ToggleBlockDate | frontend/src/App.tsx:52-74 | with a formattable date and a successful call the date is toggled in the blocked list; otherwise nothing changes |
| App.Session.ToggleTimeSlot | frontend/src/App.tsx:361-371 | the label is toggled in the disabled list |
| App.Session.BookAppointment | frontend/src/App.tsx:180-215 | on success the re-fetched list replaces the appointments and a pending notification with the request's details goes in front; on failure nothing changes |
| App.Session.ApproveAppointment | frontend/src/App.tsx:218-254 | on success records with the id become approved, and a confirmation built from the record as it was goes in front when it was found; on failure nothing changes |
| App.Session.RejectAppointment | frontend/src/App.tsx:258-302 | on success records with the id become rejected, and a notification carrying the reason goes in front when the record was found; on failure nothing changes |
| App.Session.CancelAppointment | frontend/src/App.tsx:306-345 | on success a cancellation notice goes in front when the record is found; the local appointments are not touched |
| App.Session.UpdateServicePrice | frontend/src/App.tsx:349-358 | the services become the price update by id |
| App.Session.Register | frontend/src/App.tsx:155-170 | registration succeeds exactly when the email is unused; success appends the client and signs them in; refusal changes nothing; emails stay distinct |
| Dashboard.CountStatus | frontend/src/components/Dashboard.tsx:115-118 | a status count is at most the number of appointments |
| Dashboard.ComputeStats | frontend/src/components/Dashboard.tsx:114-120 | the total is the list length and every count is within it |
| Dashboard.CountStatusCons | frontend/src/components/Dashboard.tsx:115-118 | a count grows by one exactly for a first record with that exact status text |
| Dashboard.StatsAddUp | frontend/src/components/Dashboard.tsx:114-120 | when every status is one of the four names, the four counts add up to the total |
| Dashboard.DateKey | frontend/src/components/Dashboard.tsx:65 | no contract of its own; `DateKeyLength`, `DateKeyParts` and `DateKeyInjective` state its shape and that distinct days get distinct keys |
| Dashboard.DateKeyLength | frontend/src/components/Dashboard.tsx:65 | with a four-digit year the day key has ten characters |
| Dashboard.DateKeyParts | frontend/src/components/Dashboard.tsx:65 | the key is the year's text, then the padded month (1-based) and day at fixed places from the end |
| Dashboard.DateKeyInjective | frontend/src/components/Dashboard.tsx:65 | different (year, month, day) give different keys |
| Dashboard.AppointmentsForDate | frontend/src/components/Dashboard.tsx:62-68 | the day's list contains only records whose date text is the day's key |
| Dashboard.AppointmentsForDateExact | frontend/src/components/Dashboard.tsx:62-68 | a record is listed for the day exactly when its date text is the key, as often as it occurs |
| Dashboard.IsDayBlocked | frontend/src/components/Dashboard.tsx:70-75 | the calendar tests a day's key against the blocked dates exactly as the booking form tests its date field (`Booking.IsDateBlocked`); `ToggleDayBlock` gives its behaviour under blocking and unblocking |
| Dashboard.ToggleDayBlock | frontend/src/App.tsx:52-74 | toggling a day's key in the blocked dates flips that calendar day, and every other day of the calendar with month below 12 and day below 100 keeps its state |
| Dashboard.MakeDay | frontend/src/components/Dashboard.tsx:51-57 | no contract of its own; the day number of `new Date(year, month, date)` with month carry; `YearLength` and `MonthLengths` state its properties |
| Dashboard.WeekDay | frontend/src/components/Dashboard.tsx:57 | the weekday of a day number is between 0 and 6 (`getDay`) |
| Dashboard.DaysInMonth | frontend/src/components/Dashboard.tsx:55-56 | no contract of its own; `MonthLengths` states it is the Gregorian month length |
| Dashboard.StartingDayOfWeek | frontend/src/components/Dashboard.tsx:57 | the weekday of the first of the month is between 0 (Sunday) and 6 |
| Dashboard.YearLength | frontend/src/components/Dashboard.tsx:51-60 | consecutive 1 Januaries are 365 days apart, 366 in a leap year |
| Dashboard.MonthLengths | frontend/src/components/Dashboard.tsx:55-56 | `daysInMonth` is the Gregorian length of the month (29 for February of a leap year), between 28 and 31 |
| Dashboard.LastDayInMonth | frontend/src/components/Dashboard.tsx:55-56 | day 0 of the next month falls within this month |
| Dashboard.NextMonthStart | frontend/src/components/Dashboard.tsx:51-60 | the next month's grid starts on the weekday after this month's last day, except where the two-digit rule breaks the year sequence |
| Dashboard.EpochWeekday | frontend/src/components/Dashboard.tsx:57 | 1 January 1970 is a Thursday |
| Dashboard.October2026Weekday | frontend/src/components/Dashboard.tsx:57 | 1 October 2026 is a Thursday |
| Dashboard.LeapYearExamples | frontend/src/components/Dashboard.tsx:54-55 | 2024 and 2000 are leap years and 1900 is not; year 0 is, but the constructor reads it as 1900 |
| Dashboard.February2024 | frontend/src/components/Dashboard.tsx:55-56 | February 2024 has 29 days |
| Dashboard.FebruaryYearZero | frontend/src/components/Dashboard.tsx:55-56 | February of year 0 gets 28 days, since the constructor takes it as 1900 |
| Dashboard.OfferedHoldsSlot | frontend/src/components/Dashboard.tsx:383 | a record offered approve and reject (status exactly `pending`) already holds its slot |
| Dashboard.OffersApproveReject | frontend/src/components/Dashboard.tsx:383 | no contract of its own; approve and reject are offered for the exact status `pending`; `OfferedHoldsSlot` and `ApproveOfferedKeepsSlots` state what that implies |
| Dashboard.ApproveOfferedKeepsSlots | frontend/src/components/Dashboard.tsx:383-389 | approving a record that was offered approval leaves the booked slots unchanged |
| Dashboard.RejectionArgument | frontend/src/components/Dashboard.tsx:80 | the reason passed on is the trimmed text, or none exactly when the typed reason is blank |
| Dashboard.SavedPrices | frontend/src/components/Dashboard.tsx:89-97 | saving keeps the number of services |
| Dashboard.SavedPricesEffect | frontend/src/components/Dashboard.tsx:89-97 | saving keeps each id and name, gives a service with a non-blank entry that entry as its price, and leaves every other service unchanged |
| Dashboard.BlankEntriesChangeNothing | frontend/src/components/Dashboard.tsx:91 | when every entry is blank, saving changes no price |
| Dashboard.SaveOneMore | frontend/src/components/Dashboard.tsx:91-92 | saving one more non-blank entry is one price update by that numeric id |
| Dashboard.SkipBlank | frontend/src/components/Dashboard.tsx:91 | passing over a blank entry changes nothing |
| Dashboard.Least | frontend/src/components/Dashboard.tsx:90 | the next entry visited is the least remaining key, the order `Object.entries` gives integer keys |
| Dashboard.IssuedStep | frontend/src/components/Dashboard.tsx:90-94 | visiting the least remaining entry keeps the updates issued so far ascending and exactly the non-blank visited keys |
| Dashboard.SaveEntry | frontend/src/components/Dashboard.tsx:91-92 | one entry: an update is issued exactly when the text is not blank, and the services become the saved state with that key added |
| Dashboard.ApplyPrices | frontend/src/components/Dashboard.tsx:90-94 | after the loop the services are the saved state of all entries; the ids updated are exactly the non-blank keys, in ascending order |
| Dashboard.DashboardState.constructor | frontend/src/components/Dashboard.tsx:33-38 | no selection, closed reject dialog, empty reason, not editing, no entries |
| Dashboard.DashboardState.OpenReject | frontend/src/components/Dashboard.tsx:397-399 | the reject button selects the record and opens the dialog |
| Dashboard.DashboardState.SetRejectionReason | frontend/src/components/Dashboard.tsx:429 | typing sets the reason |
| Dashboard.DashboardState.CloseReject | frontend/src/components/Dashboard.tsx:436-439 | the dialog's cancel button clears selection and reason and closes it |
| Dashboard.DashboardState.Reject | frontend/src/components/Dashboard.tsx:77-85 | with a record selected: one call with its id and the trimmed reason (none if blank), then the dialog resets; with none selected: no call and no change of reason or dialog |
| Dashboard.DashboardState.StartEditPrices | frontend/src/components/Dashboard.tsx:480 | editing starts |
| Dashboard.DashboardState.SetTempPrice | frontend/src/components/Dashboard.tsx:520 | typing sets the entry of that service id |
| Dashboard.DashboardState.CancelEditPrices | frontend/src/components/Dashboard.tsx:99-102 | editing ends with no entries |
| Dashboard.DashboardState.SavePrices | frontend/src/components/Dashboard.tsx:89-97 | the non-blank entries are saved in ascending key order, the blank ones skipped; then editing ends with no entries |
| ClientPortal.UserAppointments | frontend/src/components/ClientPortal.tsx:20 | the client's list holds only records with the signed-in email |
| ClientPortal.UserAppointmentsMembers | frontend/src/components/ClientPortal.tsx:20 | a record is listed exactly when it is in the input with the user's email, as often as it occurs; a record without email never is |
| ClientPortal.UserAppointmentsConcat | frontend/src/components/ClientPortal.tsx:20 | the client's list keeps the input order |
| ClientPortal.AllMine | frontend/src/components/ClientPortal.tsx:20 | when every record is the user's, the list is the input |
| ClientPortal.CeilDiv | frontend/src/components/ClientPortal.tsx:26 | `Math.ceil(n / d)` is the least r with n <= d * r |
| ClientPortal.CanCancelAppointment | frontend/src/components/ClientPortal.tsx:22-28 | at least one rounded-up day ahead holds exactly when the appointment's instant is after now; an unparsable date never qualifies |
| ClientPortal.CancelBoundary | frontend/src/components/ClientPortal.tsx:22-28 | one millisecond ahead still qualifies, the present instant does not |
| ClientPortal.CanCancel | frontend/src/components/ClientPortal.tsx:104-105 | no contract of its own; `CanCancelExactly` states when the cancel button shows |
| ClientPortal.CanCancelExactly | frontend/src/components/ClientPortal.tsx:104-105 | the cancel button shows exactly for a pending or approved record in the future; never for rejected or cancelled |
| ClientPortal.ShowsTooLateNotice | frontend/src/components/ClientPortal.tsx:156 | no contract of its own; `NoticeExactly` states when the notice shows |
| ClientPortal.NoticeExactly | frontend/src/components/ClientPortal.tsx:156 | the too-late notice shows exactly for a pending or approved record not in the future; it never shows with the button, and every pending or approved record shows one of the two |
| ClientPortal.StatusText | frontend/src/components/ClientPortal.tsx:59-72 | any text other than the four status names is shown unchanged |
| ClientPortal.StatusTextOfNames | frontend/src/components/ClientPortal.tsx:59-72 | the four names show as Pendiente, Confirmada, Rechazada and Cancelada, distinct labels none of which is a status name |
| ClientPortal.CancelDialog.constructor | frontend/src/components/ClientPortal.tsx:16-18 | no selection, closed dialog, empty reason |
| ClientPortal.CancelDialog.CancelClick | frontend/src/components/ClientPortal.tsx:30-33 | the cancel button selects the record and opens the dialog |
| ClientPortal.CancelDialog.SetReason | frontend/src/components/ClientPortal.tsx:190 | typing sets the reason |
| ClientPortal.CancelDialog.Back | frontend/src/components/ClientPortal.tsx:196-201 | the back button clears selection and reason and closes the dialog |
| ClientPortal.CancelDialog.ConfirmCancel | frontend/src/components/ClientPortal.tsx:35-42 | with a record selected and a non-blank reason: one call with its id and the reason as typed, then the dialog resets; otherwise no call and no change |

## Left out

- Parsing of date texts, time zones, `toISOString` and `toLocaleString`
  (`App.tsx:54-56`, `ClientPortal.tsx:23-24`, notification dates). These are
  parameters: the formatted date, the parsed instant as an `Option`, and
  the notification's date text.
- Daylight-saving shifts and the local time zone in the dashboard calendar.
  Days are ECMA-262 day numbers, and `getDate` of day 0 of the next month is
  taken relative to this month's first day.
- Booking.ConvertTo24Hour: texts whose hour or minute piece is not a
  non-empty decimal numeral are not modelled and give `None`. Only a time
  without ':' makes the source throw. For the other texts the source returns
  some string: `Number('')` is 0, so `":30 PM"` gives `"12:30:00"`, and
  `" 9"`, `"0x1A"`, `"1e1"` or `"9.5"` are numbers too. Every caller passes a
  catalog label.
- Booking.ConvertTo24Hour: numbers are exact integers. The source's numbers
  are doubles, which print in exponent form from 1e21 and lose precision
  above 2^53. The model prints such a numeral's exact value.
- Booking.IsTimeUnavailable: requires that the label converts when a date is
  selected. So it leaves out a time without ':' (the source throws there) and
  the texts `ConvertTo24Hour` does not model. Every caller passes a catalog
  label.
- ClientPortal.CanCancelAppointment: instants are exact integers. The
  floating-point division in `Math.ceil` and values beyond 2^53 are not
  modelled.
- Strings.LowerAscii: lower-cases A to Z only. The rest of the Unicode case
  mapping of `toLowerCase` is not modelled.
- The server and the network: `createAppointment`, `getAppointments`,
  `updateAppointmentStatus`, `blockDate`, `unblockDate`, the back end and its
  database constraints are not part of this model. Their outcomes are the
  `remoteOk` and `fetched` parameters.
- Asynchrony: the order in which awaited calls resolve and batched view
  updates are not modelled. Each handler runs as one step from the state it
  reads.
- Toasts, `console` logging, `window.scrollTo` and page navigation
  (`handleNavigate`, `handleLoginSuccess`, `handleLogout`, the `currentPage`
  and `isAdmin` flags) are presentation only. `handleLogin` is not modelled,
  since no component calls it.
- App.Session.Register: like `handleLogin`, `handleRegister`
  (`App.tsx:155-170`) is passed to no component. The login page takes only
  `onSuccess` (`Login.tsx:15`, `App.tsx:414`) and registers through the
  server. So `Register` models code that cannot be reached from the view.
- `getStatusColor`, the badge colours and the rest of the markup are
  presentation only.
- The unused `numericId` in `handleUpdateServicePrice` (`App.tsx:350`) has no
  effect and is left out.
- Dashboard.DashboardState.SavePrices: `tempPrices` is a map from natural
  numbers, since service ids are numbers. Object keys that are not array
  indices, and their insertion order, are not modelled.
- Dashboard.NextMonthStart: excludes December of years 99 and -1. There the
  constructor's two-digit rule makes the next year's January jump by a century.
- The month and day navigation of the dashboard calendar (`selectedMonth`,
  `selectedDay`) is left out. The calendar functions take year and month as
  parameters.
