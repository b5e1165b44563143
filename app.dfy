/**
 * The session held by the top-level component (frontend/src/App.tsx): the
 * appointments, notifications, registered clients, blocked dates, services and
 * disabled time labels, the booked slots derived from the appointments, and the
 * handlers that replace these lists.
 *
 * Calls to the server are parameters: `remoteOk` says whether the awaited call
 * returned (when it throws the handler's `catch` leaves the state as it was),
 * and a fetched list is `None` when fetching or the preceding call failed.
 * The clock is a parameter too: `stamp` is `Date.now()` and `when` the
 * locale-formatted date text.
 */
module App {
  import opened Types
  import opened Strings
  import opened Lists
  import Booking

  // ---------------------------------------------------------------------------
  // Booked slots

  /** The filter in `bookedSlots`: the lower-cased status is approved or pending. */
  predicate IsActive(a: Appointment)
  {
    var status := LowerAscii(a.status);
    status == "approved" || status == "pending"
  }

  /** The slot an appointment occupies: its date up to the first 'T', and its time. */
  function SlotOf(a: Appointment): (s: Slot)
    ensures s.date <= a.date && 'T' !in s.date
    ensures |s.date| < |a.date| ==> a.date[|s.date|] == 'T'
    ensures s.time == a.time
  {
    Slot(BeforeFirst(a.date, 'T'), a.time)
  }

  /** `bookedSlots`: the slots of the active appointments, in list order. */
  function BookedSlots(apts: seq<Appointment>): (r: seq<Slot>)
    ensures |r| <= |apts|
  {
    if apts == [] then []
    else (if IsActive(apts[0]) then [SlotOf(apts[0])] else []) + BookedSlots(apts[1..])
  }

  /** `xs.map(SlotOf)`. */
  function SlotsOf(apts: seq<Appointment>): (r: seq<Slot>)
    ensures |r| == |apts| && forall i :: 0 <= i < |apts| ==> r[i] == SlotOf(apts[i])
  {
    seq(|apts|, i requires 0 <= i < |apts| => SlotOf(apts[i]))
  }

  /** The booked slots are what the source's filter-then-map computes. */
  lemma {:induction false} BookedSlotsFilterMap(apts: seq<Appointment>)
    ensures BookedSlots(apts) == SlotsOf(Filter(apts, IsActive))
  {
    if apts != [] {
      BookedSlotsFilterMap(apts[1..]);
      var rest := Filter(apts[1..], IsActive);
      if IsActive(apts[0]) {
        assert Filter(apts, IsActive) == [apts[0]] + rest;
        assert SlotsOf([apts[0]] + rest) == [SlotOf(apts[0])] + SlotsOf(rest);
      } else {
        assert Filter(apts, IsActive) == rest;
      }
    }
  }

  /** A slot is booked exactly when some active appointment occupies it. */
  lemma {:induction false} BookedSlotsMembers(apts: seq<Appointment>, s: Slot)
    ensures s in BookedSlots(apts) <==>
            exists i :: 0 <= i < |apts| && IsActive(apts[i]) && SlotOf(apts[i]) == s
  {
    if apts != [] {
      BookedSlotsMembers(apts[1..], s);
      if exists i :: 0 <= i < |apts[1..]| && IsActive(apts[1..][i]) && SlotOf(apts[1..][i]) == s {
        var i :| 0 <= i < |apts[1..]| && IsActive(apts[1..][i]) && SlotOf(apts[1..][i]) == s;
        assert apts[i + 1] == apts[1..][i];
      }
      if exists i :: 0 <= i < |apts| && IsActive(apts[i]) && SlotOf(apts[i]) == s {
        var i :| 0 <= i < |apts| && IsActive(apts[i]) && SlotOf(apts[i]) == s;
        if i > 0 {
          assert apts[1..][i - 1] == apts[i];
        }
      }
    }
  }

  /** Rejected, cancelled and any other inactive appointments occupy nothing. */
  lemma InactiveOccupiesNothing(apts: seq<Appointment>, a: Appointment)
    requires !IsActive(a)
    ensures BookedSlots(apts + [a]) == BookedSlots(apts)
    ensures BookedSlots([a] + apts) == BookedSlots(apts)
  {
    BookedSlotsConcat(apts, [a]);
    BookedSlotsConcat([a], apts);
  }

  /** The booked slots of a concatenation, in order. */
  lemma {:induction false} BookedSlotsConcat(a: seq<Appointment>, b: seq<Appointment>)
    ensures BookedSlots(a + b) == BookedSlots(a) + BookedSlots(b)
  {
    if a == [] {
      assert a + b == b;
    } else {
      var ab := a + b;
      assert ab[0] == a[0] && ab[1..] == a[1..] + b;
      BookedSlotsConcat(a[1..], b);
      var head := if IsActive(a[0]) then [SlotOf(a[0])] else [];
      assert BookedSlots(ab) == head + BookedSlots(a[1..] + b);
      assert BookedSlots(a) == head + BookedSlots(a[1..]);
    }
  }

  // ---------------------------------------------------------------------------
  // Toggled lists

  function NotEqualTo(x: string): string -> bool
  {
    (y: string) => y != x
  }

  /** The update in `handleToggleTimeSlot` and `handleToggleBlockDate`: a present
      entry is filtered out, an absent one is appended. */
  function Toggle(s: seq<string>, x: string): seq<string>
  {
    if x in s then Filter(s, NotEqualTo(x)) else s + [x]
  }

  /** After a toggle the entry is present exactly when it was absent; every other
      entry keeps its membership and its number of occurrences. */
  lemma ToggleMembership(s: seq<string>, x: string, y: string)
    ensures x in Toggle(s, x) <==> x !in s
    ensures y != x ==> (y in Toggle(s, x) <==> y in s)
    ensures y != x ==> multiset(Toggle(s, x))[y] == multiset(s)[y]
    ensures x in s ==> multiset(Toggle(s, x))[x] == 0
    ensures x !in s ==> multiset(Toggle(s, x))[x] == 1
  {
    FilterMembers(s, NotEqualTo(x), x);
    FilterMembers(s, NotEqualTo(x), y);
    FilterMultiplicity(s, NotEqualTo(x), x);
    FilterMultiplicity(s, NotEqualTo(x), y);
  }

  /** Toggling an absent entry twice gives the original list back. */
  lemma ToggleTwice(s: seq<string>, x: string)
    requires x !in s
    ensures Toggle(Toggle(s, x), x) == s
  {
    FilterConcat(s, [x], NotEqualTo(x));
    FilterKeepsAll(s, NotEqualTo(x));
    assert Filter([x], NotEqualTo(x)) == [];
  }

  // ---------------------------------------------------------------------------
  // Status updates by id

  /** `prev.map(apt => apt.id === id ? { ...apt, status } : apt)`. */
  function SetStatusById(apts: seq<Appointment>, id: Id, status: string): (r: seq<Appointment>)
    ensures |r| == |apts|
    ensures forall i :: 0 <= i < |apts| ==> r[i] == apts[i].(status := r[i].status)
    ensures forall i :: 0 <= i < |apts| && apts[i].id == id ==> r[i].status == status
    ensures forall i :: 0 <= i < |apts| && apts[i].id != id ==> r[i] == apts[i]
  {
    seq(|apts|, i requires 0 <= i < |apts| => if apts[i].id == id then apts[i].(status := status) else apts[i])
  }

  /** Setting the same status twice is the same as setting it once. */
  lemma SetStatusIdempotent(apts: seq<Appointment>, id: Id, status: string)
    ensures SetStatusById(SetStatusById(apts, id, status), id, status) == SetStatusById(apts, id, status)
  {
  }

  lemma SetStatusTail(apts: seq<Appointment>, id: Id, status: string)
    requires apts != []
    ensures SetStatusById(apts, id, status)[1..] == SetStatusById(apts[1..], id, status)
  {
  }

  /** Approving records that already hold their slot leaves the booked slots as they were. */
  lemma {:induction false} ApproveKeepsBookedSlots(apts: seq<Appointment>, id: Id)
    requires forall i :: 0 <= i < |apts| && apts[i].id == id ==> IsActive(apts[i])
    ensures BookedSlots(SetStatusById(apts, id, "approved")) == BookedSlots(apts)
  {
    if apts != [] {
      var r := SetStatusById(apts, id, "approved");
      SetStatusTail(apts, id, "approved");
      ApproveKeepsBookedSlots(apts[1..], id);
      if apts[0].id == id {
        ActiveStatus(r[0]);
      }
      assert IsActive(r[0]) == IsActive(apts[0]) && SlotOf(r[0]) == SlotOf(apts[0]);
    }
  }

  /** A record whose status text is exactly "approved" or "pending" is active. */
  lemma ActiveStatus(a: Appointment)
    requires a.status == "approved" || a.status == "pending"
    ensures IsActive(a)
  {
    var status := a.status;
    assert forall i :: 0 <= i < |status| ==> !IsUpper(status[i]) by {
      if status == "approved" { NoCapitalsApproved(); } else { NoCapitalsPending(); }
    }
    LowerWithoutCapitals(status);
  }

  /** A record whose status text is exactly "rejected" or "cancelled" is not active. */
  lemma InactiveStatus(a: Appointment)
    requires a.status == "rejected" || a.status == "cancelled"
    ensures !IsActive(a)
  {
    var status := a.status;
    assert forall i :: 0 <= i < |status| ==> !IsUpper(status[i]) by {
      if status == "rejected" { NoCapitalsRejected(); } else { NoCapitalsCancelled(); }
    }
    LowerWithoutCapitals(status);
  }

  lemma NoCapitalsApproved()
    ensures forall i :: 0 <= i < |"approved"| ==> !IsUpper("approved"[i])
  {
  }

  lemma NoCapitalsPending()
    ensures forall i :: 0 <= i < |"pending"| ==> !IsUpper("pending"[i])
  {
  }

  lemma NoCapitalsRejected()
    ensures forall i :: 0 <= i < |"rejected"| ==> !IsUpper("rejected"[i])
  {
  }

  lemma NoCapitalsCancelled()
    ensures forall i :: 0 <= i < |"cancelled"| ==> !IsUpper("cancelled"[i])
  {
  }

  function OtherId(id: Id): Appointment -> bool
  {
    (a: Appointment) => a.id != id
  }

  /** After a rejection the booked slots are those of the active records with another id. */
  lemma {:induction false} RejectBookedSlots(apts: seq<Appointment>, id: Id)
    ensures BookedSlots(SetStatusById(apts, id, "rejected")) == BookedSlots(Filter(apts, OtherId(id)))
  {
    if apts != [] {
      var r := SetStatusById(apts, id, "rejected");
      SetStatusTail(apts, id, "rejected");
      RejectBookedSlots(apts[1..], id);
      var rest := Filter(apts[1..], OtherId(id));
      if apts[0].id == id {
        InactiveStatus(r[0]);
        assert Filter(apts, OtherId(id)) == rest;
      } else {
        assert r[0] == apts[0];
        assert Filter(apts, OtherId(id)) == [apts[0]] + rest;
        assert ([apts[0]] + rest)[1..] == rest;
      }
    }
  }

  /** Rejecting a booking frees its label on the booking form for that date, unless
      the label is disabled or another active record with a different id holds the slot. */
  lemma RejectFreesSlot(apts: seq<Appointment>, id: Id, text: string, date: string,
                        disabledTimeSlots: seq<string>)
    requires date != "" && Booking.ConvertTo24Hour(text).Some?
    requires text !in disabledTimeSlots
    requires forall i :: 0 <= i < |apts| && apts[i].id != id && IsActive(apts[i]) ==>
               SlotOf(apts[i]) != Slot(date, Booking.ConvertTo24Hour(text).value)
    ensures !Booking.IsTimeUnavailable(text, date, disabledTimeSlots,
                                       BookedSlots(SetStatusById(apts, id, "rejected")))
  {
    var s := Slot(date, Booking.ConvertTo24Hour(text).value);
    var others := Filter(apts, OtherId(id));
    RejectBookedSlots(apts, id);
    BookedSlotsMembers(others, s);
    if s in BookedSlots(others) {
      var i :| 0 <= i < |others| && IsActive(others[i]) && SlotOf(others[i]) == s;
      FilterMembers(apts, OtherId(id), others[i]);
      assert false;
    }
  }

  // ---------------------------------------------------------------------------
  // Services

  /** `service.id === serviceId`: a number id matches a service of that id, a
      string id matches none. */
  predicate SameServiceId(s: Service, serviceId: Id)
  {
    serviceId.NumId? && serviceId.n == s.id
  }

  /** The update in `handleUpdateServicePrice`. */
  function SetPrice(services: seq<Service>, serviceId: Id, price: string): (r: seq<Service>)
    ensures |r| == |services|
    ensures forall i :: 0 <= i < |services| ==> r[i].id == services[i].id && r[i].name == services[i].name
    ensures forall i :: 0 <= i < |services| && SameServiceId(services[i], serviceId) ==> r[i].price == price
    ensures forall i :: 0 <= i < |services| && !SameServiceId(services[i], serviceId) ==> r[i] == services[i]
  {
    seq(|services|, i requires 0 <= i < |services| =>
          if SameServiceId(services[i], serviceId) then services[i].(price := price) else services[i])
  }

  /** A string id, even one that reads as a number, changes no price. */
  lemma StringIdChangesNothing(services: seq<Service>, text: string, price: string)
    ensures SetPrice(services, StrId(text), price) == services
  {
  }

  /** The services the session starts with. */
  const DefaultServices: seq<Service> := [
    Service(1, "Manicure Semipermanente", "$60.000"),
    Service(2, "Uñas Acrílicas", "$80.000"),
    Service(3, "Uñas de Gel", "$75.000"),
    Service(4, "Nail Art Personalizado", "$100.000 - $135.000"),
    Service(5, "Retiro de Esmaltado", "$30.000"),
    Service(6, "Mantenimiento", "$40.000")
  ]

  // ---------------------------------------------------------------------------
  // Finding a record and the notifications

  function HasId(id: Id): Appointment -> bool
  {
    (a: Appointment) => a.id == id
  }

  /** `appointments.find(apt => apt.id === id)`. */
  function FindById(apts: seq<Appointment>, id: Id): (r: Option<Appointment>)
    ensures r.None? <==> forall i :: 0 <= i < |apts| ==> apts[i].id != id
    ensures r.Some? ==> exists i :: 0 <= i < |apts| && apts[i] == r.value && r.value.id == id &&
                                   forall j :: 0 <= j < i ==> apts[j].id != id
  {
    var k := FirstIndex(apts, HasId(id));
    if k == -1 then None else Some(apts[k])
  }

  function DetailsOf(a: Appointment): Details
  {
    Details(a.service, a.date, a.time)
  }

  /** The notification the session starts with. */
  function SampleNotification(when: string): Notification
  {
    Notification("1", Pending, "Cita Solicitada", "Tu solicitud de cita ha sido enviada.", when, None, None)
  }

  function BookedNotification(stamp: nat, when: string, req: Booking.AppointmentRequest): Notification
  {
    Notification(NatToString(stamp), Pending, "Cita Solicitada",
                 "Tu solicitud de cita ha sido enviada y está pendiente de confirmación.", when,
                 Some(Details(req.service, req.date, req.time)), None)
  }

  function ApprovedNotification(stamp: nat, when: string, a: Appointment): Notification
  {
    Notification(NatToString(stamp), Approved, "Cita Confirmada",
                 "¡Excelente! Tu cita ha sido confirmada.", when, Some(DetailsOf(a)), None)
  }

  function RejectedNotification(stamp: nat, when: string, a: Appointment, reason: Option<string>): Notification
  {
    Notification(NatToString(stamp), Rejected, "Cita No Disponible",
                 "Lamentamos informarte que no podemos confirmar tu cita en este horario.", when,
                 Some(DetailsOf(a)), reason)
  }

  function CancelledNotification(stamp: nat, when: string, a: Appointment): Notification
  {
    Notification(NatToString(stamp), Cancelled, "Cita Cancelada",
                 "Has cancelado tu cita exitosamente.", when, Some(DetailsOf(a)), None)
  }

  /** `[n, ...prev]` when the record was found, `prev` otherwise. */
  function PrependIfFound(found: Option<Appointment>, n: Appointment -> Notification,
                          prev: seq<Notification>): (r: seq<Notification>)
    ensures found.None? ==> r == prev
    ensures found.Some? ==> |r| == |prev| + 1 && r[0] == n(found.value) && r[1..] == prev
  {
    if found.None? then prev else [n(found.value)] + prev
  }

  // ---------------------------------------------------------------------------
  // Registered clients

  datatype ClientUser = ClientUser(name: string, email: string, phone: string, password: string)

  /** `clientUsers.some(u => u.email === email)`. */
  predicate EmailTaken(users: seq<ClientUser>, email: string)
  {
    exists i :: 0 <= i < |users| && users[i].email == email
  }

  /** No two registered clients share an email. */
  predicate DistinctEmails(users: seq<ClientUser>)
  {
    forall i, j :: 0 <= i < j < |users| ==> users[i].email != users[j].email
  }

  /** Registration only appends an unused email, so emails stay distinct. */
  lemma RegisterKeepsEmailsDistinct(users: seq<ClientUser>, u: ClientUser)
    requires DistinctEmails(users) && !EmailTaken(users, u.email)
    ensures DistinctEmails(users + [u])
  {
    var r := users + [u];
    forall i, j | 0 <= i < j < |r| ensures r[i].email != r[j].email {
      if j == |users| {
        assert r[i] == users[i];
      } else {
        assert r[i] == users[i] && r[j] == users[j];
      }
    }
  }

  // ---------------------------------------------------------------------------
  // The session

  class Session {
    var appointments: seq<Appointment>
    var notifications: seq<Notification>
    var clientUsers: seq<ClientUser>
    var blockedDates: seq<string>
    var services: seq<Service>
    var disabledTimeSlots: seq<string>
    var isClient: bool
    var currentUserEmail: string

    /** What holds of every session: registered emails are distinct. */
    predicate Valid()
      reads this
    {
      DistinctEmails(clientUsers)
    }

    /** The initial state, after the effect that installs the sample notification. */
    constructor(when: string)
      ensures Valid()
      ensures appointments == [] && clientUsers == [] && blockedDates == [] && disabledTimeSlots == []
      ensures notifications == [SampleNotification(when)]
      ensures services == DefaultServices
      ensures !isClient && currentUserEmail == ""
    {
      appointments := [];
      notifications := [SampleNotification(when)];
      clientUsers := [];
      blockedDates := [];
      services := DefaultServices;
      disabledTimeSlots := [];
      isClient := false;
      currentUserEmail := "";
    }

    /** The booked slots handed to the booking form. */
    function Booked(): seq<Slot>
      reads this
    {
      BookedSlots(appointments)
    }

    /** The initial load of appointments replaces the list. */
    method LoadAppointments(data: seq<Appointment>)
      modifies this`appointments
      ensures appointments == data
    {
      appointments := data;
    }

    /** The initial load of blocked dates; a failed fetch leaves the list. */
    method LoadBlockedDates(data: Option<seq<string>>)
      modifies this`blockedDates
      ensures blockedDates == if data.Some? then data.value else old(blockedDates)
    {
      if data.Some? {
        blockedDates := data.value;
      }
    }

    /** `handleToggleBlockDate`: `formatted` is the date as `YYYY-MM-DD`, `None`
        when the date text is invalid and formatting throws. */
    method ToggleBlockDate(formatted: Option<string>, remoteOk: bool)
      modifies this`blockedDates
      ensures formatted.Some? && remoteOk ==> blockedDates == Toggle(old(blockedDates), formatted.value)
      ensures formatted.None? || !remoteOk ==> blockedDates == old(blockedDates)
    {
      if formatted.Some? && remoteOk {
        var d := formatted.value;
        if d in blockedDates {
          blockedDates := Filter(blockedDates, NotEqualTo(d));
        } else {
          blockedDates := blockedDates + [d];
        }
      }
    }

    /** `handleToggleTimeSlot`. */
    method ToggleTimeSlot(timeSlot: string)
      modifies this`disabledTimeSlots
      ensures disabledTimeSlots == Toggle(old(disabledTimeSlots), timeSlot)
    {
      if timeSlot in disabledTimeSlots {
        disabledTimeSlots := Filter(disabledTimeSlots, NotEqualTo(timeSlot));
      } else {
        disabledTimeSlots := disabledTimeSlots + [timeSlot];
      }
    }

    /** `handleBookAppointment`: `fetched` is the list read back after creating the
        record, `None` when creating or reading back throws. */
    method BookAppointment(req: Booking.AppointmentRequest, fetched: Option<seq<Appointment>>,
                           stamp: nat, when: string)
      modifies this`appointments, this`notifications
      ensures fetched.None? ==> appointments == old(appointments) && notifications == old(notifications)
      ensures fetched.Some? ==> appointments == fetched.value
      ensures fetched.Some? ==> notifications == [BookedNotification(stamp, when, req)] + old(notifications)
    {
      if fetched.Some? {
        appointments := fetched.value;
        notifications := [BookedNotification(stamp, when, req)] + notifications;
      }
    }

    /** `handleApproveAppointment`; the notification is built from the list as it
        was before the update. */
    method ApproveAppointment(id: Id, remoteOk: bool, stamp: nat, when: string)
      modifies this`appointments, this`notifications
      ensures !remoteOk ==> appointments == old(appointments) && notifications == old(notifications)
      ensures remoteOk ==> appointments == SetStatusById(old(appointments), id, "approved")
      ensures remoteOk ==> notifications == PrependIfFound(FindById(old(appointments), id),
                                                            a => ApprovedNotification(stamp, when, a),
                                                            old(notifications))
    {
      if remoteOk {
        var found := FindById(appointments, id);
        appointments := SetStatusById(appointments, id, "approved");
        notifications := PrependIfFound(found, a => ApprovedNotification(stamp, when, a), notifications);
      }
    }

    /** `handleRejectAppointment`; the reason goes to the notification only, the
        local record gets the new status alone. */
    method RejectAppointment(id: Id, reason: Option<string>, remoteOk: bool, stamp: nat, when: string)
      modifies this`appointments, this`notifications
      ensures !remoteOk ==> appointments == old(appointments) && notifications == old(notifications)
      ensures remoteOk ==> appointments == SetStatusById(old(appointments), id, "rejected")
      ensures remoteOk ==> notifications == PrependIfFound(FindById(old(appointments), id),
                                                            a => RejectedNotification(stamp, when, a, reason),
                                                            old(notifications))
    {
      if remoteOk {
        var found := FindById(appointments, id);
        appointments := SetStatusById(appointments, id, "rejected");
        notifications := PrependIfFound(found, a => RejectedNotification(stamp, when, a, reason),
                                        notifications);
      }
    }

    /** `handleCancelAppointment`: the local list is not updated, so the record keeps
        its status (and its slot) until the list is fetched again. */
    method CancelAppointment(id: Id, reason: string, remoteOk: bool, stamp: nat, when: string)
      modifies this`notifications
      ensures !remoteOk ==> notifications == old(notifications)
      ensures remoteOk ==> notifications == PrependIfFound(FindById(appointments, id),
                                                            a => CancelledNotification(stamp, when, a),
                                                            old(notifications))
    {
      if remoteOk {
        var found := FindById(appointments, id);
        notifications := PrependIfFound(found, a => CancelledNotification(stamp, when, a), notifications);
      }
    }

    /** `handleUpdateServicePrice`. */
    method UpdateServicePrice(serviceId: Id, price: string)
      modifies this`services
      ensures services == SetPrice(old(services), serviceId, price)
    {
      services := SetPrice(services, serviceId, price);
    }

    /** `handleRegister`: refused for an email already registered; otherwise the
        client is appended and logged in. */
    method Register(name: string, email: string, phone: string, password: string) returns (registered: bool)
      requires Valid()
      modifies this`clientUsers, this`isClient, this`currentUserEmail
      ensures Valid()
      ensures registered <==> !EmailTaken(old(clientUsers), email)
      ensures !registered ==> clientUsers == old(clientUsers) && isClient == old(isClient) &&
                              currentUserEmail == old(currentUserEmail)
      ensures registered ==> clientUsers == old(clientUsers) + [ClientUser(name, email, phone, password)] &&
                             isClient && currentUserEmail == email
    {
      if EmailTaken(clientUsers, email) {
        return false;
      }
      RegisterKeepsEmailsDistinct(clientUsers, ClientUser(name, email, phone, password));
      clientUsers := clientUsers + [ClientUser(name, email, phone, password)];
      isClient := true;
      currentUserEmail := email;
      registered := true;
    }
  }
}
