/**
 * The booking form (frontend/src/components/BookAppointment.tsx): the fixed
 * catalog of time labels, their conversion to the stored 24-hour form, which
 * labels can be picked on the selected date, when the form can be submitted
 * and the appointment record it submits.
 */
module Booking {
  import opened Types
  import opened Strings
  import opened Lists

  /** The daily catalog of bookable time labels, in display order. */
  const TimeSlots: seq<string> :=
    ["9:00 AM", "10:00 AM", "11:00 AM", "12:00 PM",
     "2:00 PM", "3:00 PM", "4:00 PM", "5:00 PM", "6:00 PM"]

  /** The 24-hour form each catalog label is stored as, position by position. */
  const TimeSlots24: seq<string> :=
    ["09:00:00", "10:00:00", "11:00:00", "12:00:00",
     "14:00:00", "15:00:00", "16:00:00", "17:00:00", "18:00:00"]

  // ---------------------------------------------------------------------------
  // convertTo24Hour

  /** The two adjustments of the hour, applied one after the other:
      an afternoon hour other than 12 gains 12, then 12 in the morning becomes 0. */
  function AdjustHours(hours: nat, modifier: string): (r: nat)
    ensures modifier != "AM" && modifier != "PM" ==> r == hours
    ensures modifier == "AM" && hours <= 12 ==> r < 12
    ensures modifier == "PM" && 1 <= hours <= 12 ==> 12 <= r < 24
  {
    var h := if modifier == "PM" && hours != 12 then hours + 12 else hours;
    if modifier == "AM" && h == 12 then 0 else h
  }

  /** The template `${HH}:${MM}:00`, each number padded to two digits. */
  function Format24(hours: nat, minutes: nat): string
  {
    Pad2(hours) + ":" + Pad2(minutes) + ":00"
  }

  /** `convertTo24Hour(text)`: split on the first space into time and modifier,
      split the time on ':' into hours and minutes, adjust the hours and print.
      `None` when the hour or the minute piece is not a non-empty decimal
      numeral. Only a time without ':' makes the code throw; for the other
      texts in that case the code returns some text, which is not modelled. */
  function ConvertTo24Hour(text: string): (r: Option<string>)
    ensures ' ' !in text && ':' !in text ==> r.None?
  {
    var parts := Split(text, ' ');
    var modifier := if |parts| > 1 then parts[1] else "";
    var hm := Split(parts[0], ':');
    if |hm| < 2 || !IsNumeral(hm[0]) || !IsNumeral(hm[1]) then None
    else Some(Format24(AdjustHours(DigitsValue(hm[0]), modifier), DigitsValue(hm[1])))
  }

  /** A display label as the catalog writes them: unpadded hour, two-digit minutes, modifier. */
  function Label(hours: nat, minutes: nat, modifier: string): string
  {
    NatToString(hours) + ":" + Pad2(minutes) + " " + modifier
  }

  /** Converting a label: PM with an hour other than 12 adds 12, AM with hour 12
      gives 0, every other hour is kept; the minutes are kept. */
  lemma ConvertLabel(hours: nat, minutes: nat, modifier: string)
    requires ' ' !in modifier
    ensures ConvertTo24Hour(Label(hours, minutes, modifier)) ==
            Some(Format24(if modifier == "PM" && hours != 12 then hours + 12
                          else if modifier == "AM" && hours == 12 then 0
                          else hours,
                          minutes))
  {
    var hText, mText := NatToString(hours), Pad2(minutes);
    Pad2Value(minutes);
    DigitsValueOfNatToString(hours);
    SplitLabel(hText, mText, modifier);
    ConvertSplit(Label(hours, minutes, modifier), hText + ":" + mText, modifier, hText, mText);
    assert AdjustHours(hours, modifier) ==
           if modifier == "PM" && hours != 12 then hours + 12
           else if modifier == "AM" && hours == 12 then 0
           else hours;
  }

  /** The conversion of a text whose two splits are known. */
  lemma ConvertSplit(text: string, time: string, modifier: string, hText: string, mText: string)
    requires Split(text, ' ') == [time, modifier] && Split(time, ':') == [hText, mText]
    requires IsNumeral(hText) && IsNumeral(mText)
    ensures ConvertTo24Hour(text) == Some(Format24(AdjustHours(DigitsValue(hText), modifier), DigitsValue(mText)))
  {
  }

  /** A label splits into its time and modifier, and the time into hours and minutes. */
  lemma SplitLabel(hText: string, mText: string, modifier: string)
    requires IsDigits(hText) && IsDigits(mText) && ' ' !in modifier
    ensures Split(hText + ":" + mText + " " + modifier, ' ') == [hText + ":" + mText, modifier]
    ensures Split(hText + ":" + mText, ':') == [hText, mText]
  {
    NoSeparators(hText);
    NoSeparators(mText);
    var time := hText + ":" + mText;
    Join2(hText, mText, ':');
    assert ' ' !in time by {
      assert time == hText + [':'] + mText;
    }
    Join2(time, modifier, ' ');
    SplitJoin([time, modifier], ' ');
    SplitJoin([hText, mText], ':');
  }

  lemma NoSeparators(s: string)
    requires IsDigits(s)
    ensures ' ' !in s && ':' !in s
  {
  }

  lemma Join2(a: string, b: string, sep: char)
    ensures Join([a, b], sep) == a + [sep] + b
  {
    assert [a, b][1..] == [b];
  }

  /** For hours and minutes below 100 the result is HH:MM:00, eight characters. */
  lemma Format24Shape(hours: nat, minutes: nat)
    requires hours < 100 && minutes < 100
    ensures Format24(hours, minutes) ==
            [DigitChar(hours / 10), DigitChar(hours % 10), ':',
             DigitChar(minutes / 10), DigitChar(minutes % 10), ':', '0', '0']
    ensures |Format24(hours, minutes)| == 8
  {
    var hh, mm := Pad2(hours), Pad2(minutes);
    TwoDigits(hours);
    TwoDigits(minutes);
    assert hh == [DigitChar(hours / 10), DigitChar(hours % 10)];
    assert mm == [DigitChar(minutes / 10), DigitChar(minutes % 10)];
    assert Format24(hours, minutes) == hh + [':'] + mm + [':', '0', '0'];
  }

  /** Each catalog label converts to its 24-hour form. */
  lemma CatalogConversions()
    ensures |TimeSlots| == |TimeSlots24| == 9
    ensures forall i :: 0 <= i < 9 ==> ConvertTo24Hour(TimeSlots[i]) == Some(TimeSlots24[i])
  {
    forall i | 0 <= i < 9 ensures ConvertTo24Hour(TimeSlots[i]) == Some(TimeSlots24[i]) {
      CatalogConversion(i);
    }
  }

  lemma CatalogConversion(i: nat)
    requires i < 9
    ensures ConvertTo24Hour(TimeSlots[i]) == Some(TimeSlots24[i])
  {
    if i < 3 {
      MorningConversion(i);
    } else if i < 6 {
      MiddayConversion(i);
    } else {
      AfternoonConversion(i);
    }
  }

  lemma MorningConversion(i: nat)
    requires i < 3
    ensures ConvertTo24Hour(TimeSlots[i]) == Some(TimeSlots24[i])
  {
    var text, expected := TimeSlots[i], TimeSlots24[i];
    if i == 0 {
      HourLabel(text, expected, 9, "AM", "9", 9, "09");
    } else if i == 1 {
      HourLabel(text, expected, 10, "AM", "10", 10, "10");
    } else {
      HourLabel(text, expected, 11, "AM", "11", 11, "11");
    }
  }

  lemma MiddayConversion(i: nat)
    requires 3 <= i < 6
    ensures ConvertTo24Hour(TimeSlots[i]) == Some(TimeSlots24[i])
  {
    var text, expected := TimeSlots[i], TimeSlots24[i];
    if i == 3 {
      HourLabel(text, expected, 12, "PM", "12", 12, "12");
    } else if i == 4 {
      HourLabel(text, expected, 2, "PM", "2", 14, "14");
    } else {
      HourLabel(text, expected, 3, "PM", "3", 15, "15");
    }
  }

  lemma AfternoonConversion(i: nat)
    requires 6 <= i < 9
    ensures ConvertTo24Hour(TimeSlots[i]) == Some(TimeSlots24[i])
  {
    var text, expected := TimeSlots[i], TimeSlots24[i];
    if i == 6 {
      HourLabel(text, expected, 4, "PM", "4", 16, "16");
    } else if i == 7 {
      HourLabel(text, expected, 5, "PM", "5", 17, "17");
    } else {
      HourLabel(text, expected, 6, "PM", "6", 18, "18");
    }
  }

  /** A catalog label on the hour, given by its spelling, converts to its
      spelled 24-hour form. */
  lemma HourLabel(text: string, expected: string, hours: nat, modifier: string,
                  hoursText: string, adjusted: nat, hours24Text: string)
    requires hours < 13 && (modifier == "AM" || modifier == "PM")
    requires text == hoursText + ":00 " + modifier && expected == hours24Text + ":00:00"
    requires NatToString(hours) == hoursText
    requires AdjustHours(hours, modifier) == adjusted && Pad2(adjusted) == hours24Text
    ensures ConvertTo24Hour(text) == Some(expected)
  {
    OnTheHourText(text, expected, hours, modifier, hoursText, adjusted, hours24Text);
    OnTheHour(text, hours, modifier, expected);
  }

  /** How a label on the hour and its 24-hour form are spelled. */
  lemma OnTheHourText(text: string, expected: string, hours: nat, modifier: string,
                      hoursText: string, adjusted: nat, hours24Text: string)
    requires text == hoursText + ":00 " + modifier && expected == hours24Text + ":00:00"
    requires NatToString(hours) == hoursText
    requires AdjustHours(hours, modifier) == adjusted && Pad2(adjusted) == hours24Text
    ensures text == NatToString(hours) + ":00 " + modifier
    ensures expected == Format24(AdjustHours(hours, modifier), 0)
  {
    ZeroMinutes(hours24Text);
  }

  lemma ZeroMinutes(hh: string)
    ensures hh + ":" + Pad2(0) + ":00" == hh + ":00:00"
  {
    assert Pad2(0) == "00";
  }

  /** Midnight, which the catalog does not offer, converts to hour 00. */
  lemma MidnightConversion(text: string)
    requires text == "12:00 AM"
    ensures ConvertTo24Hour(text) == Some("00:00:00")
  {
    OnTheHour(text, 12, "AM", "00:00:00");
  }

  /** A label on the hour converts to the adjusted hour with minutes 00. */
  lemma OnTheHour(text: string, hours: nat, modifier: string, expected: string)
    requires hours < 13 && (modifier == "AM" || modifier == "PM")
    requires text == NatToString(hours) + ":00 " + modifier
    requires expected == Format24(AdjustHours(hours, modifier), 0)
    ensures ConvertTo24Hour(text) == Some(expected)
  {
    LabelOnTheHour(hours, modifier);
    ConvertLabel(hours, 0, modifier);
    assert AdjustHours(hours, modifier) ==
           if modifier == "PM" && hours != 12 then hours + 12
           else if modifier == "AM" && hours == 12 then 0
           else hours;
  }

  lemma LabelOnTheHour(hours: nat, modifier: string)
    ensures Label(hours, 0, modifier) == NatToString(hours) + ":00 " + modifier
  {
    assert Pad2(0) == "00";
  }

  /** Distinct catalog labels convert to distinct 24-hour times. */
  lemma CatalogInjective()
    ensures forall i, j :: 0 <= i < |TimeSlots| && 0 <= j < |TimeSlots| ==>
              (ConvertTo24Hour(TimeSlots[i]) == ConvertTo24Hour(TimeSlots[j]) ==> i == j)
  {
    forall i, j | 0 <= i < |TimeSlots| && 0 <= j < |TimeSlots|
      ensures ConvertTo24Hour(TimeSlots[i]) == ConvertTo24Hour(TimeSlots[j]) ==> i == j
    {
      CatalogConversion(i);
      CatalogConversion(j);
      if i != j {
        Catalog24Distinct(i, j);
      }
    }
  }

  lemma Catalog24Distinct(i: nat, j: nat)
    requires i < 9 && j < 9 && i != j
    ensures TimeSlots24[i] != TimeSlots24[j]
  {
    assert TimeSlots24[i][1] != TimeSlots24[j][1] || TimeSlots24[i][0] != TimeSlots24[j][0];
  }

  // ---------------------------------------------------------------------------
  // Availability

  /** `bookedSlots.some(slot => slot.date === date && slot.time === time24)`. */
  function SlotTaken(bookedSlots: seq<Slot>, date: string, time24: string): (r: bool)
    ensures r <==> Slot(date, time24) in bookedSlots
  {
    if bookedSlots == [] then false
    else (bookedSlots[0].date == date && bookedSlots[0].time == time24)
         || SlotTaken(bookedSlots[1..], date, time24)
  }

  /** `isTimeUnavailable(time)`: with no date selected nothing is unavailable;
      otherwise a globally disabled label is unavailable, and any other label is
      unavailable exactly when a booked slot has the selected date and the label's
      24-hour time. Blocked dates are not consulted. */
  function IsTimeUnavailable(time: string, selectedDate: string,
                             disabledTimeSlots: seq<string>, bookedSlots: seq<Slot>): (r: bool)
    requires selectedDate != "" ==> ConvertTo24Hour(time).Some?
    ensures selectedDate == "" ==> !r
    ensures selectedDate != "" && time in disabledTimeSlots ==> r
    ensures selectedDate != "" && time !in disabledTimeSlots ==>
              (r <==> Slot(selectedDate, ConvertTo24Hour(time).value) in bookedSlots)
  {
    if selectedDate == "" then false
    else
      var time24 := ConvertTo24Hour(time).value;
      if time in disabledTimeSlots then true
      else SlotTaken(bookedSlots, selectedDate, time24)
  }

  /** `isDateBlocked(date)`: the date is in the blocked list. It only disables
      the date field; it does not take part in availability or form validity. */
  predicate IsDateBlocked(date: string, blockedDates: seq<string>)
  {
    date in blockedDates
  }

  // ---------------------------------------------------------------------------
  // The form and the record it submits

  datatype BookingForm = BookingForm(
    selectedDate: string,
    selectedTime: string,
    selectedService: Option<int>,
    name: string,
    phone: string,
    email: string)

  /** JavaScript truthiness of a text and of a possibly-null number. */
  predicate Truthy(s: string) { s != "" }
  predicate TruthyNumber(n: Option<int>) { n.Some? && n.value != 0 }

  /** `isFormValid`: the conjunction of the six fields' truthiness. */
  function IsFormValid(f: BookingForm): (r: bool)
    ensures r <==> f.selectedDate != "" && f.selectedTime != "" &&
                   f.selectedService.Some? && f.selectedService.value != 0 &&
                   f.name != "" && f.phone != "" && f.email != ""
  {
    Truthy(f.selectedDate) && Truthy(f.selectedTime) && TruthyNumber(f.selectedService)
    && Truthy(f.name) && Truthy(f.phone) && Truthy(f.email)
  }

  /** `services.find(s => s.id === selected)?.name || ''`. */
  function ServiceName(services: seq<Service>, selected: Option<int>): (r: string)
    ensures selected.None? ==> r == ""
    ensures selected.Some? && (forall i :: 0 <= i < |services| ==> services[i].id != selected.value) ==> r == ""
    ensures forall i :: 0 <= i < |services| && selected == Some(services[i].id) ==>
              ((forall j :: 0 <= j < i ==> services[j].id != services[i].id) ==> r == services[i].name)
  {
    if selected.None? then ""
    else
      var k := FirstIndex(services, (s: Service) => s.id == selected.value);
      if k == -1 then "" else services[k].name
  }

  /** The record `handleSubmit` hands to the session. */
  datatype AppointmentRequest = AppointmentRequest(
    clientName: string,
    service: string,
    date: string,
    time: string,
    phone: string,
    email: string,
    status: string)

  /** The record built in `handleSubmit`; `None` when the selected time is not
      of the modelled form (see `ConvertTo24Hour`). */
  function SubmittedRecord(f: BookingForm, services: seq<Service>): (r: Option<AppointmentRequest>)
    ensures r.Some? <==> ConvertTo24Hour(f.selectedTime).Some?
    ensures r.Some? ==> r.value.status == "pending" && r.value.time == ConvertTo24Hour(f.selectedTime).value
    ensures r.Some? ==> r.value.service == ServiceName(services, f.selectedService)
    ensures r.Some? ==> r.value.clientName == f.name && r.value.date == f.selectedDate &&
                        r.value.phone == f.phone && r.value.email == f.email
  {
    match ConvertTo24Hour(f.selectedTime)
    case None => None
    case Some(time24) =>
      Some(AppointmentRequest(f.name, ServiceName(services, f.selectedService), f.selectedDate,
                              time24, f.phone, f.email, "pending"))
  }

  /** A valid form whose time was picked from the catalog submits a pending record
      stored at that label's 24-hour time, with every contact field filled in. */
  lemma ValidFormSubmits(f: BookingForm, services: seq<Service>)
    requires IsFormValid(f) && f.selectedTime in TimeSlots
    ensures var r := SubmittedRecord(f, services);
      r.Some? && r.value.status == "pending" && r.value.date != "" &&
      r.value.clientName != "" && r.value.phone != "" && r.value.email != "" &&
      exists i :: 0 <= i < |TimeSlots| && f.selectedTime == TimeSlots[i] && r.value.time == TimeSlots24[i]
  {
    var i :| 0 <= i < |TimeSlots| && f.selectedTime == TimeSlots[i];
    CatalogConversion(i);
    assert SubmittedRecord(f, services).value.time == TimeSlots24[i];
  }
}
