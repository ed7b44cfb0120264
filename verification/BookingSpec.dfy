/**
 Bookings (app/tools/booking_tools.py). Creating is one transaction; cancelling reads the booking,
 marks it, and reopens the slot in three separate steps that other calls interleave with.
 */
module BookingSpec {
  import opened Options

  datatype Status = Confirmed | Cancelled
  datatype Booking = Booking(slot: string, user: string, company: string, status: Status)

  /** A cancel call under way: the booking as it was read, and the step it takes next. */
  datatype Phase = Marking | Reopening
  datatype Cancel = Cancel(id: string, slot: string, phase: Phase)

  /** `slots` says which slots are available. */
  datatype Store = Store(slots: map<string, bool>, bookings: map<string, Booking>, cancels: map<nat, Cancel>)

  datatype Outcome =
    | Created(booking: Booking) | SlotNotFound | SlotUnavailable
    | Cancelling | BookingNotFound | NotYours | OtherCompany
    | Progress | Reopened(id: string) | Failed

  datatype Result = Result(store: Store, outcome: Outcome)

  /** The transaction of `create_booking`. */
  function Create(s: Store, slot: string, id: string, user: string, company: string): Result {
    if slot !in s.slots then Result(s, SlotNotFound)
    else if !s.slots[slot] then Result(s, SlotUnavailable)
    else
      var b := Booking(slot, user, company, Confirmed);
      Result(s.(slots := s.slots[slot := false], bookings := s.bookings[id := b]), Created(b))
  }

  /** The read and the ownership checks of `cancel_booking`, by call number `task`. */
  function BeginCancel(s: Store, task: nat, id: string, user: string, company: string): Result {
    if id !in s.bookings then Result(s, BookingNotFound)
    else
      var b := s.bookings[id];
      if b.user != user then Result(s, NotYours)
      else if company != "" && b.company != "" && company != b.company then Result(s, OtherCompany)
      else Result(s.(cancels := s.cancels[task := Cancel(id, b.slot, Marking)]), Cancelling)
  }

  /** The next step of a cancel; updating a document that does not exist raises. */
  function Continue(s: Store, task: nat): Result {
    if task !in s.cancels then Result(s, Failed)
    else
      var c := s.cancels[task];
      match c.phase
      case Marking =>
        if c.id !in s.bookings then Result(s.(cancels := s.cancels - {task}), Failed)
        else Result(s.(bookings := s.bookings[c.id := s.bookings[c.id].(status := Cancelled)],
                       cancels := s.cancels[task := c.(phase := Reopening)]), Progress)
      case Reopening =>
        if c.slot !in s.slots then Result(s.(cancels := s.cancels - {task}), Failed)
        else Result(s.(slots := s.slots[c.slot := true], cancels := s.cancels - {task}), Reopened(c.id))
  }

  /** A cancel that is cut short between its steps. */
  function Abandon(s: Store, task: nat): Result {
    Result(s.(cancels := s.cancels - {task}), Failed)
  }

  datatype Event =
    | Book(slot: string, id: string, user: string, company: string)
    | Ask(task: nat, id: string, user: string, company: string)
    | Advance(task: nat)
    | Crash(task: nat)

  function Step(s: Store, e: Event): Result {
    match e
    case Book(slot, id, user, company) => Create(s, slot, id, user, company)
    case Ask(task, id, user, company) => BeginCancel(s, task, id, user, company)
    case Advance(task) => Continue(s, task)
    case Crash(task) => Abandon(s, task)
  }
}
