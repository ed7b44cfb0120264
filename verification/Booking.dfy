/** The slot and booking documents, changed step by step, against the transitions of BookingSpec. */
module BookingDesk {
  import opened Options
  import opened BookingSpec

  class Desk {
    var slots: map<string, bool>
    var bookings: map<string, Booking>
    var cancels: map<nat, Cancel>

    ghost function View(): Store
      reads this
    {
      Store(slots, bookings, cancels)
    }

    constructor (available: map<string, bool>)
      ensures View() == Store(available, map[], map[])
    {
      slots, bookings, cancels := available, map[], map[];
    }

    method CreateBooking(slot: string, id: string, user: string, company: string) returns (outcome: Outcome)
      modifies this`slots, this`bookings
      ensures Result(View(), outcome) == Create(old(View()), slot, id, user, company)
    {
      if slot !in slots {
        return SlotNotFound;
      }
      if !slots[slot] {
        return SlotUnavailable;
      }
      var booking := Booking(slot, user, company, Confirmed);
      bookings := bookings[id := booking];
      slots := slots[slot := false];
      return Created(booking);
    }

    method ReadForCancel(task: nat, id: string, user: string, company: string) returns (outcome: Outcome)
      modifies this`cancels
      ensures Result(View(), outcome) == BeginCancel(old(View()), task, id, user, company)
    {
      if id !in bookings {
        return BookingNotFound;
      }
      var booking := bookings[id];
      if booking.user != user {
        return NotYours;
      }
      if company != "" && booking.company != "" && company != booking.company {
        return OtherCompany;
      }
      cancels := cancels[task := Cancel(id, booking.slot, Marking)];
      return Cancelling;
    }

    method ContinueCancel(task: nat) returns (outcome: Outcome)
      modifies this
      ensures Result(View(), outcome) == Continue(old(View()), task)
    {
      if task !in cancels {
        return Failed;
      }
      var c := cancels[task];
      if c.phase == Marking {
        if c.id !in bookings {
          cancels := cancels - {task};
          return Failed;
        }
        bookings := bookings[c.id := bookings[c.id].(status := Cancelled)];
        cancels := cancels[task := c.(phase := Reopening)];
        return Progress;
      }
      if c.slot !in slots {
        cancels := cancels - {task};
        return Failed;
      }
      slots := slots[c.slot := true];
      cancels := cancels - {task};
      return Reopened(c.id);
    }
  }
}
