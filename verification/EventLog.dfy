/**
 Two cursors over a session's append-only event log: batched memory saves
 (app/agents/ekaette_router/agent.py) and token telemetry (app/agents/dedup.py).
 */
module EventLog {
  import opened Arith
  import opened Seqs
  import opened Options

  // ---- Memory saves -----------------------------------------------------------------------------------

  const BATCH_SIZE := 25

  /** A save under way: the batch it was given and the cursor it will set. */
  datatype Save<T> = Save(batch: seq<T>, next: nat)

  /** `inFlight` is the flag in the session state; `tasks` are the background saves not finished yet. */
  datatype Log<T> = Log(events: seq<T>, cursor: nat, inFlight: bool, tasks: seq<Save<T>>, saved: seq<seq<T>>)

  /** `_schedule_memory_save`, up to the creation of the background task. */
  function Schedule<T>(s: Log<T>): Log<T> {
    var cursor := Min(s.cursor, |s.events|);
    if s.events == [] || s.inFlight || cursor >= |s.events| then s
    else
      var next := Min(|s.events|, cursor + BATCH_SIZE);
      s.(inFlight := true, tasks := s.tasks + [Save(s.events[cursor..next], next)])
  }

  /** The `i`-th background save ends; only a successful one moves the cursor. */
  function Finish<T>(s: Log<T>, i: nat, ok: bool): Log<T> {
    if i >= |s.tasks| then s
    else
      var t := s.(inFlight := false, tasks := s.tasks[..i] + s.tasks[i + 1..]);
      if ok then t.(cursor := s.tasks[i].next, saved := s.saved + [s.tasks[i].batch]) else t
  }

  datatype LogEvent<T> = Append(events: seq<T>) | Callback | SaveEnds(task: nat, ok: bool)

  function LogStep<T>(s: Log<T>, e: LogEvent<T>): Log<T> {
    match e
    case Append(events) => s.(events := s.events + events)
    case Callback => Schedule(s)
    case SaveEnds(task, ok) => Finish(s, task, ok)
  }

  function LogRun<T>(es: seq<LogEvent<T>>): Log<T> {
    if es == [] then Log([], 0, false, [], [])
    else LogStep(LogRun(es[..|es| - 1]), es[|es| - 1])
  }

  class MemorySaver<T> {
    var events: seq<T>
    var cursor: nat
    var inFlight: bool
    var tasks: seq<Save<T>>
    ghost var saved: seq<seq<T>>

    ghost function View(): Log<T>
      reads this
    {
      Log(events, cursor, inFlight, tasks, saved)
    }

    method ScheduleMemorySave()
      modifies this`inFlight, this`tasks
      ensures View() == Schedule(old(View()))
    {
      if events == [] {
        return;
      }
      if inFlight {
        return;
      }
      var from := cursor;
      if from > |events| {
        from := |events|;
      }
      if from >= |events| {
        return;
      }
      var next := Min(|events|, from + BATCH_SIZE);
      var toSave := events[from..next];
      inFlight := true;
      tasks := tasks + [Save(toSave, next)];
    }

    /** The end of a background save: the cursor on success, the flag in any case. */
    method SaveEnds(task: nat, ok: bool)
      requires task < |tasks|
      modifies this
      ensures View() == Finish(old(View()), task, ok)
    {
      if ok {
        cursor := tasks[task].next;
        saved := saved + [tasks[task].batch];
      }
      inFlight := false;
      tasks := tasks[..task] + tasks[task + 1..];
    }
  }

  predicate LogInv<T(==)>(s: Log<T>) {
    && s.cursor <= |s.events|
    && Concat(s.saved) == s.events[..s.cursor]
    && (forall i :: 0 <= i < |s.saved| ==> 1 <= |s.saved[i]| <= 25)
    && |s.tasks| == (if s.inFlight then 1 else 0)
    && (s.inFlight ==> var t := s.tasks[0];
         && s.cursor < t.next <= |s.events| && t.next <= s.cursor + BATCH_SIZE
         && t.batch == s.events[s.cursor..t.next])
  }

  lemma AppendKeepsInv<T>(s: Log<T>, events: seq<T>)
    requires LogInv(s)
    ensures LogInv(s.(events := s.events + events))
  {
    hide Concat;
    var all := s.events + events;
    assert all[..s.cursor] == s.events[..s.cursor];
    if s.inFlight {
      assert all[s.cursor..s.tasks[0].next] == s.events[s.cursor..s.tasks[0].next];
    }
  }

  lemma ScheduleKeepsInv<T>(s: Log<T>)
    requires LogInv(s)
    ensures LogInv(Schedule(s))
  {
    hide Concat;
  }

  lemma FinishKeepsInv<T>(s: Log<T>, task: nat, ok: bool)
    requires LogInv(s)
    ensures LogInv(Finish(s, task, ok))
  {
    hide Concat;
    if task < |s.tasks| && ok {
      var t := s.tasks[task];
      ConcatOne(s.saved, t.batch);
      assert s.events[..t.next] == s.events[..s.cursor] + s.events[s.cursor..t.next];
    }
  }

  lemma LogStepKeepsInv<T>(s: Log<T>, e: LogEvent<T>)
    requires LogInv(s)
    ensures LogInv(LogStep(s, e))
  {
    hide LogInv, Schedule, Finish;
    match e
    case Append(events) => AppendKeepsInv(s, events);
    case Callback => ScheduleKeepsInv(s);
    case SaveEnds(task, ok) => FinishKeepsInv(s, task, ok);
  }

  /**
   For every interleaving of appends, callbacks, and saves that succeed or fail: at most one save is
   under way, and the saved batches are the log up to the cursor, each event exactly once, in order.
   */
  lemma {:induction false} SavedExactlyOnce<T>(es: seq<LogEvent<T>>)
    ensures LogInv(LogRun(es))
  {
    if es == [] {
      assert LogRun(es) == Log([], 0, false, [], []);
    } else {
      hide LogInv, LogStep;
      SavedExactlyOnce(es[..|es| - 1]);
      LogStepKeepsInv(LogRun(es[..|es| - 1]), es[|es| - 1]);
    }
  }

  /** `rounds` callbacks, each followed by the end of its save. */
  function SaveRounds<T>(s: Log<T>, rounds: nat): Log<T>
    decreases rounds
  {
    if rounds == 0 then s else Finish(Schedule(SaveRounds(s, rounds - 1)), 0, true)
  }

  /** With no failures, every callback saves a full batch until the log is saved. */
  lemma {:induction false} RoundsCatchUp<T>(s: Log<T>, rounds: nat)
    requires LogInv(s) && !s.inFlight
    ensures var r := SaveRounds(s, rounds);
            LogInv(r) && !r.inFlight && r.events == s.events && r.cursor == Min(|s.events|, s.cursor + 25 * rounds)
  {
    hide LogInv, Schedule, Finish;
    if rounds > 0 {
      RoundsCatchUp(s, rounds - 1);
      RoundSavesBatch(SaveRounds(s, rounds - 1));
    } else {
      CursorInLog(s);
    }
  }

  lemma CursorInLog<T>(s: Log<T>)
    requires LogInv(s)
    ensures s.cursor <= |s.events|
  {
  }

  lemma RoundSavesBatch<T>(s: Log<T>)
    requires LogInv(s) && !s.inFlight
    ensures var r := Finish(Schedule(s), 0, true);
            LogInv(r) && !r.inFlight && r.events == s.events && r.cursor == Min(|s.events|, s.cursor + BATCH_SIZE)
  {
    hide Concat;
    ScheduleKeepsInv(s);
    FinishKeepsInv(Schedule(s), 0, true);
  }

  // ---- Token telemetry ----------------------------------------------------------------------------------

  /** The usage fields of an event, in the order each is looked up; None is a missing or non-numeric field. */
  datatype Usage = Usage(prompt: seq<Option<real>>, completion: seq<Option<real>>, total: seq<Option<real>>)

  /** `_extract_int`: the first positive value, truncated. */
  function ExtractInt(values: seq<Option<real>>): nat {
    if values == [] then 0
    else if values[0].Some? && values[0].value > 0.0 then values[0].value.Floor
    else ExtractInt(values[1..])
  }

  datatype Tokens = Tokens(prompt: nat, completion: nat, total: nat)
  const ZERO := Tokens(0, 0, 0)

  function Add(a: Tokens, b: Tokens): Tokens {
    Tokens(a.prompt + b.prompt, a.completion + b.completion, a.total + b.total)
  }

  /** What one event counts; events without usage count nothing. */
  function TokensOf(usage: Option<Usage>): Tokens {
    match usage
    case None => ZERO
    case Some(u) =>
      var p, c, t := ExtractInt(u.prompt), ExtractInt(u.completion), ExtractInt(u.total);
      Tokens(p, c, if t <= 0 then p + c else t)
  }

  function Sum(events: seq<Option<Usage>>): Tokens {
    if events == [] then ZERO else Add(Sum(events[..|events| - 1]), TokensOf(events[|events| - 1]))
  }

  datatype Meter = Meter(events: seq<Option<Usage>>, cursor: nat, totals: Tokens)

  /** `telemetry_after_agent`; a delta of zero tokens moves the cursor and leaves the totals alone. */
  function Telemetry(m: Meter): Meter {
    if m.events == [] then m
    else
      var from := if m.cursor > |m.events| then 0 else m.cursor;
      var delta := Sum(m.events[from..]);
      var t := m.(cursor := |m.events|);
      if delta.total <= 0 then t else t.(totals := Add(m.totals, delta))
  }

  lemma SumNext(events: seq<Option<Usage>>, k: nat)
    requires k < |events|
    ensures Sum(events[..k + 1]) == Add(Sum(events[..k]), TokensOf(events[k]))
  {
    hide TokensOf;
    assert events[..k + 1][..k] == events[..k];
  }

  class TokenMeter {
    var events: seq<Option<Usage>>
    var cursor: nat
    var totals: Tokens

    ghost function View(): Meter
      reads this
    {
      Meter(events, cursor, totals)
    }

    /** The loop over the events from a cursor on. */
    method Delta(from: nat) returns (delta: Tokens)
      requires from <= |events|
      ensures delta == Sum(events[from..])
    {
      hide ExtractInt, Sum;
      var prompt, completion, total := 0, 0, 0;
      ghost var rest := events[from..];
      SumOfNone();
      for i := from to |events|
        invariant Tokens(prompt, completion, total) == Sum(rest[..i - from])
      {
        SumNext(rest, i - from);
        if events[i].Some? {
          var u := events[i].value;
          var p, c, t := ExtractInt(u.prompt), ExtractInt(u.completion), ExtractInt(u.total);
          if t <= 0 {
            t := p + c;
          }
          prompt, completion, total := prompt + p, completion + c, total + t;
        }
      }
      assert rest[..|rest|] == rest;
      return Tokens(prompt, completion, total);
    }

    method TelemetryAfterAgent()
      modifies this`cursor, this`totals
      ensures View() == Telemetry(old(View()))
    {
      hide Sum;
      if events == [] {
        return;
      }
      var from := cursor;
      if from > |events| {
        from := 0;
      }
      var delta := Delta(from);
      cursor := |events|;
      if delta.total <= 0 {
        return;
      }
      totals := Add(totals, delta);
    }
  }

  lemma SumOfNone()
    ensures Sum([]) == ZERO
  {
  }

  datatype MeterEvent = Logged(events: seq<Option<Usage>>) | AgentDone

  function MeterStep(m: Meter, e: MeterEvent): Meter {
    match e
    case Logged(events) => m.(events := m.events + events)
    case AgentDone => Telemetry(m)
  }

  function MeterRun(es: seq<MeterEvent>): Meter {
    if es == [] then Meter([], 0, ZERO) else MeterStep(MeterRun(es[..|es| - 1]), es[|es| - 1])
  }

  lemma {:induction false} SumAppend(a: seq<Option<Usage>>, b: seq<Option<Usage>>)
    ensures Sum(a + b) == Add(Sum(a), Sum(b))
  {
    hide TokensOf, Add;
    if b == [] {
      assert a + b == a;
      AddZero(Sum(a));
    } else {
      var front, last := b[..|b| - 1], b[|b| - 1];
      SumAppend(a, front);
      assert (a + b)[..|a + b| - 1] == a + front;
      AddAssociates(Sum(a), Sum(front), TokensOf(last));
    }
  }

  lemma AddZero(a: Tokens)
    ensures Add(a, ZERO) == a
  {
  }

  lemma AddAssociates(a: Tokens, b: Tokens, c: Tokens)
    ensures Add(Add(a, b), c) == Add(a, Add(b, c))
  {
  }

  predicate Consistent(t: Tokens) {
    t.total >= 1 || (t.prompt <= 0 && t.completion <= 0)
  }

  lemma EventConsistent(usage: Option<Usage>)
    ensures Consistent(TokensOf(usage))
  {
    hide ExtractInt;
  }

  lemma AddConsistent(a: Tokens, b: Tokens)
    requires Consistent(a) && Consistent(b)
    ensures Consistent(Add(a, b))
  {
  }

  /** A total of zero means no tokens at all, so the early return skips nothing. */
  lemma {:induction false} TotalsConsistent(events: seq<Option<Usage>>)
    ensures Consistent(Sum(events))
  {
    hide TokensOf, Add, Consistent;
    if events == [] {
      assert Consistent(ZERO) by { NothingConsistent(); }
    } else {
      TotalsConsistent(events[..|events| - 1]);
      EventConsistent(events[|events| - 1]);
      AddConsistent(Sum(events[..|events| - 1]), TokensOf(events[|events| - 1]));
    }
  }

  lemma NothingConsistent()
    ensures Consistent(ZERO)
  {
  }

  lemma AddNothing(a: Tokens, b: Tokens)
    requires Consistent(b) && b.total <= 0
    ensures Add(a, b) == a
  {
  }

  /** For every interleaving: the running totals are those of one pass over the log up to the cursor. */
  lemma {:induction false} TotalsAreOneFold(es: seq<MeterEvent>)
    ensures var m := MeterRun(es); m.cursor <= |m.events| && m.totals == Sum(m.events[..m.cursor])
  {
    if es != [] {
      hide Sum, TokensOf, Add, Consistent;
      TotalsAreOneFold(es[..|es| - 1]);
      var m := MeterRun(es[..|es| - 1]);
      match es[|es| - 1]
      case Logged(events) => assert (m.events + events)[..m.cursor] == m.events[..m.cursor];
      case AgentDone =>
        var before, rest := m.events[..m.cursor], m.events[m.cursor..];
        SumAppend(before, rest);
        assert m.events == before + rest;
        assert m.events[..|m.events|] == m.events;
        TotalsConsistent(rest);
        if Sum(rest).total <= 0 {
          AddNothing(Sum(before), Sum(rest));
        }
    } else {
      SumOfNone();
    }
  }

  /** When the callback returns, every event of the log has been counted. */
  lemma CallbackCountsAll(es: seq<MeterEvent>)
    requires es != [] && es[|es| - 1] == AgentDone
    ensures var m := MeterRun(es); m.cursor == |m.events| && m.totals == Sum(m.events)
  {
    hide Sum;
    TotalsAreOneFold(es);
    TotalsAreOneFold(es[..|es| - 1]);
    var m := MeterRun(es);
    assert m.events[..|m.events|] == m.events;
  }

  /** The first positive value, truncated; nothing counts as 0. */
  lemma {:induction false} ExtractExactly(values: seq<Option<real>>, i: nat)
    requires i <= |values| && forall j :: 0 <= j < i ==> values[j].None? || values[j].value <= 0.0
    ensures i == |values| ==> ExtractInt(values) == 0
    ensures i < |values| && values[i].Some? && values[i].value > 0.0 ==>
              ExtractInt(values) as real <= values[i].value < (ExtractInt(values) + 1) as real
    decreases i
  {
    if i > 0 {
      ExtractExactly(values[1..], i - 1);
    }
  }

  /** An event adds its own counts, the sum of prompt and completion where it has no total; one without usage adds nothing. */
  lemma SumExactly(events: seq<Option<Usage>>, u: Usage)
    ensures Sum(events + [None]) == Sum(events)
    ensures var a, b := Sum(events), Sum(events + [Some(u)]);
            && b.prompt == a.prompt + ExtractInt(u.prompt)
            && b.completion == a.completion + ExtractInt(u.completion)
            && b.total == a.total + if ExtractInt(u.total) > 0 then ExtractInt(u.total)
                                    else ExtractInt(u.prompt) + ExtractInt(u.completion)
  {
    hide Sum, ExtractInt;
    SumSnoc(events, None);
    SumSnoc(events, Some(u));
    AddZero(Sum(events));
  }

  lemma SumSnoc(events: seq<Option<Usage>>, e: Option<Usage>)
    ensures Sum(events + [e]) == Add(Sum(events), TokensOf(e))
  {
    hide Sum, TokensOf, Add;
    var all := events + [e];
    SumNext(all, |events|);
    assert all[..|events|] == events && all[..|events| + 1] == all;
  }
}
