/**
 * The client's own page: the appointments booked under the signed-in e-mail,
 * the one-day cancellation policy, the Spanish status labels and the
 * cancellation dialog. Instants are integer milliseconds; the parse of an
 * appointment's date is a parameter (`None` when `new Date` yields an invalid
 * date).
 */
module ClientPortal {
  import opened Types
  import opened Strings
  import opened Lists

  // ---------------------------------------------------------------------------
  // The client's appointments

  function EmailIs(userEmail: string): Appointment -> bool
  {
    (a: Appointment) => a.email == Some(userEmail)
  }

  /** `appointments.filter(apt => apt.email === userEmail)`; a record without
      an e-mail never matches. */
  function UserAppointments(apts: seq<Appointment>, userEmail: string): (r: seq<Appointment>)
    ensures |r| <= |apts|
    ensures forall i :: 0 <= i < |r| ==> r[i].email == Some(userEmail)
  {
    Filter(apts, EmailIs(userEmail))
  }

  /** A record is listed exactly when it is in the input under the user's
      e-mail, and as many times as it occurs there. */
  lemma UserAppointmentsMembers(apts: seq<Appointment>, userEmail: string, a: Appointment)
    ensures a in UserAppointments(apts, userEmail) <==> a in apts && a.email == Some(userEmail)
    ensures multiset(UserAppointments(apts, userEmail))[a] ==
              if a.email == Some(userEmail) then multiset(apts)[a] else 0
  {
    FilterMembers(apts, EmailIs(userEmail), a);
    FilterMultiplicity(apts, EmailIs(userEmail), a);
  }

  /** The list keeps the input's order: the user's records of an earlier part
      of the input come before those of a later part. */
  lemma UserAppointmentsConcat(a: seq<Appointment>, b: seq<Appointment>, userEmail: string)
    ensures UserAppointments(a + b, userEmail) == UserAppointments(a, userEmail) + UserAppointments(b, userEmail)
  {
    FilterConcat(a, b, EmailIs(userEmail));
  }

  /** When every record is the user's, the list is the input itself. */
  lemma AllMine(apts: seq<Appointment>, userEmail: string)
    requires forall i :: 0 <= i < |apts| ==> apts[i].email == Some(userEmail)
    ensures UserAppointments(apts, userEmail) == apts
  {
    FilterKeepsAll(apts, EmailIs(userEmail));
  }

  // ---------------------------------------------------------------------------
  // The cancellation policy

  /** Milliseconds in a day, `1000 * 60 * 60 * 24`. */
  const DayMs: int := 86400000

  /** `Math.ceil(n / d)` for a positive divisor. */
  function CeilDiv(n: int, d: int): (r: int)
    requires d > 0
    ensures d * (r - 1) < n <= d * r
  {
    if n % d == 0 then n / d else n / d + 1
  }

  /** `canCancelAppointment`: the appointment's instant is at least one
      (rounded-up) day away. An unparsable date gives `NaN`, which is never
      at least 1. */
  function CanCancelAppointment(aptMs: Option<int>, nowMs: int): (r: bool)
    ensures r <==> aptMs.Some? && aptMs.value > nowMs
  {
    match aptMs
    case None => false
    case Some(apt) => CeilDiv(apt - nowMs, DayMs) >= 1
  }

  /** An appointment one millisecond ahead can still be cancelled; one at the
      current instant cannot. */
  lemma CancelBoundary(nowMs: int)
    ensures CanCancelAppointment(Some(nowMs + 1), nowMs)
    ensures !CanCancelAppointment(Some(nowMs), nowMs)
    ensures CeilDiv(1, DayMs) == 1 && CeilDiv(0, DayMs) == 0
  {
  }

  /** The status texts the cancel button is offered for, compared exactly. */
  predicate Cancellable(status: string)
  {
    status == "pending" || status == "approved"
  }

  /** `canCancel` for one listed appointment: far enough ahead and still
      pending or approved. */
  predicate CanCancel(a: Appointment, aptMs: Option<int>, nowMs: int)
  {
    CanCancelAppointment(aptMs, nowMs) && Cancellable(a.status)
  }

  /** The cancel button is offered exactly for a pending or approved record
      whose date lies after the current instant; never for a rejected or
      cancelled one. */
  lemma CanCancelExactly(a: Appointment, aptMs: Option<int>, nowMs: int)
    ensures CanCancel(a, aptMs, nowMs) <==>
              (a.status == "pending" || a.status == "approved") && aptMs.Some? && aptMs.value > nowMs
    ensures a.status == "rejected" || a.status == "cancelled" ==> !CanCancel(a, aptMs, nowMs)
  {
  }

  /** Whether the "less than one day" notice is shown for a listed appointment. */
  predicate ShowsTooLateNotice(a: Appointment, aptMs: Option<int>, nowMs: int)
  {
    !CanCancel(a, aptMs, nowMs) && Cancellable(a.status)
  }

  /** The notice appears exactly for a pending or approved record whose date
      is not after now (or does not parse); it never appears together with the
      cancel button, and every pending or approved record shows one of the two. */
  lemma NoticeExactly(a: Appointment, aptMs: Option<int>, nowMs: int)
    ensures ShowsTooLateNotice(a, aptMs, nowMs) <==>
              (a.status == "pending" || a.status == "approved") && (aptMs.None? || aptMs.value <= nowMs)
    ensures !(ShowsTooLateNotice(a, aptMs, nowMs) && CanCancel(a, aptMs, nowMs))
    ensures Cancellable(a.status) ==> ShowsTooLateNotice(a, aptMs, nowMs) || CanCancel(a, aptMs, nowMs)
  {
  }

  // ---------------------------------------------------------------------------
  // Status labels

  /** `getStatusText`: the Spanish label of each of the four states; any other
      text is shown as it is. */
  function StatusText(status: string): (r: string)
    ensures !IsStatus(status) ==> r == status
  {
    if status == "pending" then "Pendiente"
    else if status == "approved" then "Confirmada"
    else if status == "rejected" then "Rechazada"
    else if status == "cancelled" then "Cancelada"
    else status
  }

  /** The four labels, one per state. */
  function StatusLabel(st: Status): string
  {
    match st
    case Pending => "Pendiente"
    case Approved => "Confirmada"
    case Rejected => "Rechazada"
    case Cancelled => "Cancelada"
  }

  /** Each state's text is shown as its own label, and distinct states get
      distinct labels, none of which is itself a status text. */
  lemma StatusTextOfNames(st: Status, other: Status)
    ensures StatusText(StatusName(st)) == StatusLabel(st)
    ensures !IsStatus(StatusLabel(st))
    ensures StatusLabel(st) == StatusLabel(other) ==> st == other
  {
  }

  // ---------------------------------------------------------------------------
  // The cancellation dialog

  class CancelDialog {
    var selectedAppointment: Option<Appointment>
    var showCancelModal: bool
    var cancellationReason: string

    constructor()
      ensures selectedAppointment.None? && !showCancelModal && cancellationReason == ""
    {
      selectedAppointment := None;
      showCancelModal := false;
      cancellationReason := "";
    }

    /** `handleCancelClick`: remembers the appointment and opens the dialog. */
    method CancelClick(a: Appointment)
      modifies this`selectedAppointment, this`showCancelModal
      ensures selectedAppointment == Some(a) && showCancelModal
    {
      selectedAppointment := Some(a);
      showCancelModal := true;
    }

    /** Typing into the reason field. */
    method SetReason(text: string)
      modifies this`cancellationReason
      ensures cancellationReason == text
    {
      cancellationReason := text;
    }

    /** The dialog's back button: closes it and forgets selection and reason. */
    method Back()
      modifies this`selectedAppointment, this`showCancelModal, this`cancellationReason
      ensures selectedAppointment.None? && !showCancelModal && cancellationReason == ""
    {
      showCancelModal := false;
      selectedAppointment := None;
      cancellationReason := "";
    }

    /** `handleConfirmCancel`: with an appointment selected and a reason that is
        not blank, the call to the cancellation handler with the appointment's
        id and the reason as typed (untrimmed), and the dialog reset; otherwise
        no call and no change. */
    method ConfirmCancel() returns (call: Option<(Id, string)>)
      modifies this`selectedAppointment, this`showCancelModal, this`cancellationReason
      ensures old(selectedAppointment).Some? && !IsBlank(old(cancellationReason)) ==>
                call == Some((old(selectedAppointment).value.id, old(cancellationReason))) &&
                selectedAppointment.None? && !showCancelModal && cancellationReason == ""
      ensures old(selectedAppointment).None? || IsBlank(old(cancellationReason)) ==>
                call.None? && selectedAppointment == old(selectedAppointment) &&
                showCancelModal == old(showCancelModal) && cancellationReason == old(cancellationReason)
    {
      if selectedAppointment.Some? && Trim(cancellationReason) != [] {
        call := Some((selectedAppointment.value.id, cancellationReason));
        showCancelModal := false;
        selectedAppointment := None;
        cancellationReason := "";
      } else {
        call := None;
      }
    }
  }
}
