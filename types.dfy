/**
 * The records the salon scheduler passes between its components: appointments,
 * services, notifications and the (date, time) slots that active appointments hold.
 */
module Types {

  datatype Option<T> = None | Some(value: T)

  /** An identifier that is either a JavaScript number or a string; `===` between
      two ids is equality of these values (a number never equals a string). */
  datatype Id = NumId(n: int) | StrId(s: string)

  /** The four appointment states the client code knows about. */
  datatype Status = Pending | Approved | Rejected | Cancelled

  /** The text each state is written as in an appointment record. */
  function StatusName(st: Status): string
  {
    match st
    case Pending => "pending"
    case Approved => "approved"
    case Rejected => "rejected"
    case Cancelled => "cancelled"
  }

  /** Whether a status text is one of the four names. */
  predicate IsStatus(s: string)
  {
    s == "pending" || s == "approved" || s == "rejected" || s == "cancelled"
  }

  /** An appointment as the server returns it. Its `status` is kept as text: the
      declared type is the four-name union, but nothing checks what the server sends. */
  datatype Appointment = Appointment(
    id: Id,
    clientName: string,
    phone: Option<string>,
    email: Option<string>,
    date: string,
    time: string,
    service: string,
    status: string,
    createdAt: string,
    rejectionReason: Option<string>,
    cancellationReason: Option<string>)

  datatype Service = Service(id: int, name: string, price: string)

  /** The appointment data a notification repeats. */
  datatype Details = Details(service: string, date: string, time: string)

  datatype Notification = Notification(
    id: string,
    kind: Status,
    title: string,
    message: string,
    date: string,
    details: Option<Details>,
    rejectionReason: Option<string>)

  /** A (date, time) pair that an active appointment occupies. */
  datatype Slot = Slot(date: string, time: string)
}
