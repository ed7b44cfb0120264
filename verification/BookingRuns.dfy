/** Who holds a slot, over every interleaving of creates and cancels. */
module BookingRuns {
  import opened Options
  import opened BookingSpec

  /** A run, with the ids whose cancel was let through and those whose cancel has reopened a slot. */
  datatype Trail = Trail(store: Store, asked: set<string>, reopened: set<string>)

  function Follow(t: Trail, e: Event): Trail {
    var r := Step(t.store, e);
    Trail(r.store,
          t.asked + (if e.Ask? && r.outcome == Cancelling then {e.id} else {}),
          t.reopened + (if r.outcome.Reopened? then {r.outcome.id} else {}))
  }

  function Trace(slots: map<string, bool>, es: seq<Event>): Trail {
    if es == [] then Trail(Store(slots, map[], map[]), {}, {})
    else Follow(Trace(slots, es[..|es| - 1]), es[|es| - 1])
  }

  /** Confirmed, or cancelled but its slot not yet reopened. */
  predicate Holds(t: Trail, id: string, slot: string) {
    id in t.store.bookings && id !in t.reopened && t.store.bookings[id].slot == slot
  }

  ghost predicate Safe(t: Trail) {
    && (forall a, b, slot :: Holds(t, a, slot) && Holds(t, b, slot) ==> a == b)
    && (forall slot :: slot in t.store.slots && t.store.slots[slot] ==> forall id :: !Holds(t, id, slot))
  }

  /** Confirmation ids are fresh, and no id or call number is used for a second cancel. */
  predicate Fair(t: Trail, e: Event) {
    match e
    case Book(_, id, _, _) => id !in t.store.bookings
    case Ask(task, id, _, _) => id !in t.asked && task !in t.store.cancels
    case _ => true
  }

  predicate FairRun(slots: map<string, bool>, es: seq<Event>) {
    forall n :: 0 <= n < |es| ==> Fair(Trace(slots, es[..n]), es[n])
  }

  /** Bookings name known slots; each cancel under way is the only one for its booking. */
  predicate Consistent(t: Trail) {
    && (forall id :: id in t.store.bookings ==> t.store.bookings[id].slot in t.store.slots)
    && (forall id :: id in t.reopened ==> id in t.store.bookings && id in t.asked)
    && (forall id :: id in t.asked ==> id in t.store.bookings)
    && (forall id :: id in t.store.bookings && t.store.bookings[id].status == Cancelled ==> id in t.asked)
    && (forall id :: id in t.reopened ==> t.store.bookings[id].status == Cancelled)
    && (forall k :: k in t.store.cancels ==> var c := t.store.cancels[k];
          && c.id in t.asked && c.id !in t.reopened
          && t.store.bookings[c.id].slot == c.slot
          && (c.phase == Reopening ==> t.store.bookings[c.id].status == Cancelled))
    && (forall k, l :: k in t.store.cancels && l in t.store.cancels && k != l ==> t.store.cancels[k].id != t.store.cancels[l].id)
  }

  lemma FollowBook(t: Trail, e: Event)
    requires Safe(t) && Consistent(t) && Fair(t, e) && e.Book?
    ensures Safe(Follow(t, e)) && Consistent(Follow(t, e))
  {
    var r := Follow(t, e);
    assert forall id, slot :: Holds(r, id, slot) ==> Holds(t, id, slot) || (id == e.id && slot == e.slot && t.store.slots[slot]);
  }

  lemma FollowAsk(t: Trail, e: Event)
    requires Safe(t) && Consistent(t) && Fair(t, e) && e.Ask?
    ensures Safe(Follow(t, e)) && Consistent(Follow(t, e))
  {
    var r := Follow(t, e);
    assert forall id, slot :: Holds(r, id, slot) <==> Holds(t, id, slot);
  }

  lemma FollowAdvance(t: Trail, task: nat)
    requires Safe(t) && Consistent(t)
    ensures Safe(Follow(t, Advance(task))) && Consistent(Follow(t, Advance(task)))
  {
    var r := Follow(t, Advance(task));
    if task in t.store.cancels {
      var c := t.store.cancels[task];
      if c.phase == Marking {
        assert forall id, slot :: Holds(r, id, slot) <==> Holds(t, id, slot);
      } else {
        assert Holds(t, c.id, c.slot);
        assert forall id, slot :: Holds(r, id, slot) <==> Holds(t, id, slot) && id != c.id;
      }
    } else {
      assert r == t;
    }
  }

  lemma FollowKeepsSafe(t: Trail, e: Event)
    requires Safe(t) && Consistent(t) && Fair(t, e)
    ensures Safe(Follow(t, e)) && Consistent(Follow(t, e))
  {
    match e
    case Book(_, _, _, _) => FollowBook(t, e);
    case Ask(_, _, _, _) => FollowAsk(t, e);
    case Advance(task) => FollowAdvance(t, task);
    case Crash(task) =>
      assert forall id, slot :: Holds(Follow(t, e), id, slot) <==> Holds(t, id, slot);
  }

  lemma FairPrefix(slots: map<string, bool>, es: seq<Event>)
    requires FairRun(slots, es) && es != []
    ensures FairRun(slots, es[..|es| - 1]) && Fair(Trace(slots, es[..|es| - 1]), es[|es| - 1])
  {
    var front := es[..|es| - 1];
    forall n | 0 <= n < |front|
      ensures Fair(Trace(slots, front[..n]), front[n])
    {
      assert front[..n] == es[..n] && front[n] == es[n];
    }
  }

  /**
   For every interleaving, with fresh confirmation ids and at most one cancel let through per id: a
   slot has at most one holder, and an available slot has none.
   */
  lemma {:induction false} AtMostOneHolder(slots: map<string, bool>, es: seq<Event>)
    requires FairRun(slots, es)
    ensures Safe(Trace(slots, es)) && Consistent(Trace(slots, es))
  {
    if es != [] {
      FairPrefix(slots, es);
      AtMostOneHolder(slots, es[..|es| - 1]);
      hide Safe, Consistent, Fair, Follow;
      FollowKeepsSafe(Trace(slots, es[..|es| - 1]), es[|es| - 1]);
    }
  }

  // ---- No slot is lost ------------------------------------------------------------------------------

  /** A slot that was available at the start and is not now has a holder. */
  ghost predicate Accounted(slots: map<string, bool>, t: Trail) {
    && t.store.slots.Keys == slots.Keys
    && forall slot :: slot in slots && slots[slot] && !t.store.slots[slot] ==> exists id :: Holds(t, id, slot)
  }

  lemma FollowKeepsAccounted(slots: map<string, bool>, t: Trail, e: Event)
    requires Safe(t) && Consistent(t) && Fair(t, e) && Accounted(slots, t)
    ensures Accounted(slots, Follow(t, e))
  {
    var r := Follow(t, e);
    forall slot | slot in slots && slots[slot] && !r.store.slots[slot]
      ensures exists id :: Holds(r, id, slot)
    {
      if t.store.slots[slot] {
        assert e.Book? && Holds(r, e.id, slot);
      } else {
        var id :| Holds(t, id, slot);
        assert Holds(r, id, slot);
      }
    }
  }

  /** A slot that was available at the start is unavailable exactly while it has a holder. */
  lemma {:induction false} UnavailableIffHeld(slots: map<string, bool>, es: seq<Event>)
    requires FairRun(slots, es)
    ensures var t := Trace(slots, es);
            && t.store.slots.Keys == slots.Keys
            && forall slot :: slot in slots && slots[slot] ==>
                 (!t.store.slots[slot] <==> exists id :: Holds(t, id, slot))
    ensures Accounted(slots, Trace(slots, es))
  {
    AtMostOneHolder(slots, es);
    if es != [] {
      FairPrefix(slots, es);
      UnavailableIffHeld(slots, es[..|es| - 1]);
      AtMostOneHolder(slots, es[..|es| - 1]);
      FollowKeepsAccounted(slots, Trace(slots, es[..|es| - 1]), es[|es| - 1]);
    }
  }

  // ---- Only the owner cancels -------------------------------------------------------------------------

  /** This event asks for the cancelling of `b`, as its own user and not from another company. */
  predicate Owns(e: Event, b: Booking) {
    e.Ask? && e.user == b.user && (e.company == "" || b.company == "" || e.company == b.company)
  }

  predicate AskedByOwner(es: seq<Event>, id: string, b: Booking) {
    exists n :: 0 <= n < |es| && Owns(es[n], b) && es[n].id == id
  }

  /** A booking is only ever cancelled after its own user asked for it, and never for another company. */
  lemma {:induction false} OnlyOwnerCancels(slots: map<string, bool>, es: seq<Event>, id: string)
    requires FairRun(slots, es)
    ensures var t := Trace(slots, es);
            id in t.asked ==> id in t.store.bookings && AskedByOwner(es, id, t.store.bookings[id])
    ensures var t := Trace(slots, es);
            id in t.store.bookings && t.store.bookings[id].status == Cancelled ==> id in t.asked
  {
    AtMostOneHolder(slots, es);
    if es != [] {
      var front, e := es[..|es| - 1], es[|es| - 1];
      FairPrefix(slots, es);
      OnlyOwnerCancels(slots, front, id);
      AtMostOneHolder(slots, front);
      var before, t := Trace(slots, front), Trace(slots, es);
      if id in before.asked {
        var n :| 0 <= n < |front| && Owns(front[n], before.store.bookings[id]) && front[n].id == id;
        SameOwner(before, e, id);
        assert Owns(es[n], t.store.bookings[id]);
      } else if id in t.asked {
        assert Owns(es[|es| - 1], t.store.bookings[id]);
      }
    }
  }

  lemma SameOwner(t: Trail, e: Event, id: string)
    requires Fair(t, e) && id in t.store.bookings
    ensures id in Follow(t, e).store.bookings
    ensures var a, b := t.store.bookings[id], Follow(t, e).store.bookings[id]; b == a.(status := b.status)
  {
  }

  // ---- Why one cancel per id ------------------------------------------------------------------------

  /** In any safe state, reopening a slot is safe exactly when no other booking holds it. */
  lemma ReopenExactly(t: Trail, task: nat)
    requires Safe(t) && task in t.store.cancels && t.store.cancels[task].phase == Reopening
    requires t.store.cancels[task].slot in t.store.slots
    ensures var c := t.store.cancels[task];
            Safe(Follow(t, Advance(task))) <==> forall id :: Holds(t, id, c.slot) ==> id == c.id
  {
    var c, r := t.store.cancels[task], Follow(t, Advance(task));
    assert forall id, slot :: Holds(r, id, slot) <==> Holds(t, id, slot) && id != c.id;
    assert r.store.slots[c.slot];
  }

  /** A cancel that reopens its slot now finds no other booking holding it. */
  ghost predicate ReopensOwn(t: Trail, e: Event) {
    e.Advance? && e.task in t.store.cancels && t.store.cancels[e.task].phase == Reopening ==>
      var c := t.store.cancels[e.task];
      c.slot in t.store.slots ==> forall id :: Holds(t, id, c.slot) ==> id == c.id
  }

  /** What holds of any run with fresh confirmation ids, however often an id is cancelled. */
  predicate Known(t: Trail) {
    && (forall id :: id in t.reopened ==> id in t.store.bookings)
    && (forall k :: k in t.store.cancels ==> t.store.cancels[k].id in t.store.bookings)
  }

  lemma FollowSafeExactly(t: Trail, e: Event)
    requires Safe(t) && Known(t) && (e.Book? ==> e.id !in t.store.bookings)
    ensures Known(Follow(t, e))
    ensures Safe(Follow(t, e)) <==> ReopensOwn(t, e)
  {
    var r := Follow(t, e);
    match e
    case Book(slot, id, _, _) =>
      assert forall i, s :: Holds(r, i, s) ==> Holds(t, i, s) || (i == id && s == slot && t.store.slots[slot]);
    case Advance(task) =>
      if task in t.store.cancels && t.store.cancels[task].phase == Reopening && t.store.cancels[task].slot in t.store.slots {
        ReopenExactly(t, task);
      } else {
        assert forall i, s :: Holds(r, i, s) <==> Holds(t, i, s);
      }
    case _ =>
      assert forall i, s :: Holds(r, i, s) <==> Holds(t, i, s);
  }

  ghost predicate AlwaysSafe(slots: map<string, bool>, es: seq<Event>) {
    Safe(Trace(slots, es)) && (es != [] ==> AlwaysSafe(slots, es[..|es| - 1]))
  }

  ghost predicate AlwaysReopensOwn(slots: map<string, bool>, es: seq<Event>) {
    es != [] ==>
      var front := es[..|es| - 1];
      AlwaysReopensOwn(slots, front) && ReopensOwn(Trace(slots, front), es[|es| - 1])
  }

  predicate FreshIds(slots: map<string, bool>, es: seq<Event>) {
    es != [] ==>
      var front, e := es[..|es| - 1], es[|es| - 1];
      FreshIds(slots, front) && (e.Book? ==> e.id !in Trace(slots, front).store.bookings)
  }

  /**
   For every interleaving with fresh confirmation ids, whatever is cancelled how often: no slot ever has
   two holders or a holder while available, exactly when no cancel reopens a slot another booking holds.
   */
  lemma {:induction false} SafeExactly(slots: map<string, bool>, es: seq<Event>)
    requires FreshIds(slots, es)
    ensures AlwaysSafe(slots, es) <==> AlwaysReopensOwn(slots, es)
    ensures Known(Trace(slots, es)) || !AlwaysSafe(slots, es)
  {
    hide Safe, Known, ReopensOwn, Follow;
    if es == [] {
      EmptySafe(slots);
    } else {
      var front, e := es[..|es| - 1], es[|es| - 1];
      SafeExactly(slots, front);
      if AlwaysSafe(slots, front) {
        assert Safe(Trace(slots, front));
        FollowSafeExactly(Trace(slots, front), e);
      }
    }
  }

  lemma EmptySafe(slots: map<string, bool>)
    ensures Safe(Trace(slots, [])) && Known(Trace(slots, []))
  {
  }

  /** Two cancels of one booking, with its slot booked again in between. */
  function SecondCancel(slot: string, id: string, user: string, next: string, other: string): seq<Event> {
    [Book(slot, id, user, ""), Ask(0, id, user, ""), Ask(1, id, user, ""), Advance(0), Advance(0),
     Book(slot, next, other, ""), Advance(1), Advance(1)]
  }

  /** They leave the slot available although the new booking holds it, whoever made it. */
  lemma SecondCancelBreaksSafety(slot: string, id: string, user: string, next: string, other: string)
    requires id != next
    ensures var t := Trace(map[slot := true], SecondCancel(slot, id, user, next, other));
            && !Safe(t) && Holds(t, next, slot) && t.store.bookings[next].status == Confirmed
            && slot in t.store.slots && t.store.slots[slot]
  {
    hide Follow, Trace;
    var start := Trail(Store(map[slot := true], map[], map[]), {}, {});
    BookOpen(start, slot, id, user, "");
    var t1 := Follow(start, Book(slot, id, user, ""));
    AskTwice(t1, id, user);
    var t3 := Follow(Follow(t1, Ask(0, id, user, "")), Ask(1, id, user, ""));
    TwoSteps(t3, 0);
    var t5 := Follow(Follow(t3, Advance(0)), Advance(0));
    BookOpen(t5, slot, next, other, "");
    var t6 := Follow(t5, Book(slot, next, other, ""));
    TwoSteps(t6, 1);
    var t8 := Follow(Follow(t6, Advance(1)), Advance(1));
    assert t8.reopened == {id} && t8.store.bookings[next] == Booking(slot, other, "", Confirmed) && t8.store.slots[slot];
    assert Holds(t8, next, slot);
    assert !Safe(t8);
    TraceOf8(map[slot := true], Book(slot, id, user, ""), Ask(0, id, user, ""), Ask(1, id, user, ""), Advance(0), Advance(0),
             Book(slot, next, other, ""), Advance(1), Advance(1));
    assert Trace(map[slot := true], SecondCancel(slot, id, user, next, other)) == t8;
  }

  lemma BookOpen(t: Trail, slot: string, id: string, user: string, company: string)
    requires slot in t.store.slots && t.store.slots[slot]
    ensures Follow(t, Book(slot, id, user, company)) ==
            t.(store := t.store.(slots := t.store.slots[slot := false],
                                 bookings := t.store.bookings[id := Booking(slot, user, company, Confirmed)]))
  {
  }

  lemma AskTwice(t: Trail, id: string, user: string)
    requires id in t.store.bookings && t.store.bookings[id].user == user
    ensures var m := Cancel(id, t.store.bookings[id].slot, Marking);
            Follow(Follow(t, Ask(0, id, user, "")), Ask(1, id, user, "")) ==
            t.(store := t.store.(cancels := t.store.cancels[0 := m][1 := m]), asked := t.asked + {id})
  {
  }

  /** Marking and then reopening, when nothing comes between. */
  lemma TwoSteps(t: Trail, task: nat)
    requires task in t.store.cancels && t.store.cancels[task].phase == Marking
    requires t.store.cancels[task].id in t.store.bookings && t.store.cancels[task].slot in t.store.slots
    ensures var c := t.store.cancels[task];
            Follow(Follow(t, Advance(task)), Advance(task)) ==
            Trail(Store(t.store.slots[c.slot := true],
                        t.store.bookings[c.id := t.store.bookings[c.id].(status := Cancelled)],
                        t.store.cancels - {task}),
                  t.asked, t.reopened + {c.id})
  {
    var c := t.store.cancels[task];
    assert t.store.cancels[task := c.(phase := Reopening)] - {task} == t.store.cancels - {task};
  }

  lemma TraceStep(slots: map<string, bool>, es: seq<Event>, e: Event)
    ensures Trace(slots, es + [e]) == Follow(Trace(slots, es), e)
  {
    assert (es + [e])[..|es|] == es;
  }

  lemma TraceOf8(slots: map<string, bool>, a: Event, b: Event, c: Event, d: Event, e: Event, f: Event, g: Event, h: Event)
    ensures Trace(slots, [a, b, c, d, e, f, g, h]) ==
            Follow(Follow(Follow(Follow(Follow(Follow(Follow(Follow(Trail(Store(slots, map[], map[]), {}, {}), a), b), c), d), e), f), g), h)
  {
    hide Trace, Follow;
    EmptyTrace(slots);
    TraceStep(slots, [], a);
    TraceStep(slots, [a], b);
    TraceStep(slots, [a, b], c);
    TraceStep(slots, [a, b, c], d);
    TraceStep(slots, [a, b, c, d], e);
    TraceStep(slots, [a, b, c, d, e], f);
    TraceStep(slots, [a, b, c, d, e, f], g);
    TraceStep(slots, [a, b, c, d, e, f, g], h);
    assert [] + [a] == [a] && [a] + [b] == [a, b] && [a, b] + [c] == [a, b, c] && [a, b, c] + [d] == [a, b, c, d];
    assert [a, b, c, d] + [e] == [a, b, c, d, e] && [a, b, c, d, e] + [f] == [a, b, c, d, e, f];
    assert [a, b, c, d, e, f] + [g] == [a, b, c, d, e, f, g] && [a, b, c, d, e, f, g] + [h] == [a, b, c, d, e, f, g, h];
  }

  lemma EmptyTrace(slots: map<string, bool>)
    ensures Trace(slots, []) == Trail(Store(slots, map[], map[]), {}, {})
  {
  }

  // ---- Single calls -----------------------------------------------------------------------------------

  /** A booking is made exactly when its slot exists and is available; then the slot is taken and nothing else changes. */
  lemma CreateExactly(s: Store, slot: string, id: string, user: string, company: string)
    ensures var r := Create(s, slot, id, user, company);
            && (r.outcome == SlotNotFound <==> slot !in s.slots)
            && (r.outcome == SlotUnavailable <==> slot in s.slots && !s.slots[slot])
            && (r.outcome.Created? <==> slot in s.slots && s.slots[slot])
            && (!r.outcome.Created? ==> r.store == s)
            && (r.outcome.Created? ==>
                  && r.outcome.booking == Booking(slot, user, company, Confirmed)
                  && r.store.cancels == s.cancels && r.store.slots.Keys == s.slots.Keys
                  && (forall k :: k in s.slots ==> r.store.slots[k] == (k != slot && s.slots[k]))
                  && r.store.bookings.Keys == s.bookings.Keys + {id} && r.store.bookings[id] == r.outcome.booking
                  && (forall k :: k in s.bookings && k != id ==> r.store.bookings[k] == s.bookings[k]))
  {
  }

  /** A cancel is let through exactly for the booking's own user, unless both sides name a company and they differ. */
  lemma AskExactly(s: Store, task: nat, id: string, user: string, company: string)
    ensures var r := BeginCancel(s, task, id, user, company);
            var known, own := id in s.bookings, id in s.bookings && s.bookings[id].user == user;
            var same := own && (company == "" || s.bookings[id].company == "" || s.bookings[id].company == company);
            && (r.outcome == BookingNotFound <==> !known)
            && (r.outcome == NotYours <==> known && !own)
            && (r.outcome == OtherCompany <==> own && !same)
            && (r.outcome == Cancelling <==> same)
            && (!same ==> r.store == s)
            && (same ==> r.store == s.(cancels := s.cancels[task := Cancel(id, s.bookings[id].slot, Marking)]))
  {
  }

  /** An uninterrupted cancel ends with the booking cancelled, its slot available and nothing else changed. */
  lemma CancelCompletes(t: Trail, task: nat, id: string, user: string)
    requires id in t.store.bookings && t.store.bookings[id].user == user && t.store.bookings[id].slot in t.store.slots
    requires task !in t.store.cancels
    ensures var r := Follow(Follow(Follow(t, Ask(task, id, user, "")), Advance(task)), Advance(task)).store;
            var b := t.store.bookings[id];
            r == Store(t.store.slots[b.slot := true], t.store.bookings[id := b.(status := Cancelled)], t.store.cancels)
  {
    var a := Follow(t, Ask(task, id, user, ""));
    TwoSteps(a, task);
    assert a.store.cancels - {task} == t.store.cancels;
  }

  /** A step whose document is missing ends the cancel and changes nothing else; so does a crash. */
  lemma StepFails(s: Store, task: nat)
    requires task in s.cancels
    ensures var c, r := s.cancels[task], Continue(s, task);
            (r.outcome == Failed <==> if c.phase == Marking then c.id !in s.bookings else c.slot !in s.slots)
            && (r.outcome == Failed ==> r.store == s.(cancels := s.cancels - {task}))
    ensures Abandon(s, task).store == s.(cancels := s.cancels - {task})
  {
  }
}
