/** What the firings of a list with any options do, in every run: each firing calls every callback that is in the
    list, or is added meanwhile, and not taken out, once, in order, with its data; callbacks added to a list that
    remembers are called at once with the latest data; and firings follow in the order they were asked for. */
module CallbackRounds {
  import opened CallbackLists
  import opened CallbackQueues
  import opened CallbackTurns

  /** The turn after the first n events. */
  ghost function TurnAt(log: seq<Event>, o: Options, t: nat, n: nat): Option<Turn>
    requires n <= |log|
  {
    if n == 0 then Some(NewTurn(o))
    else if TurnAt(log, o, t, n - 1).None? then None
    else NextTurn(TurnAt(log, o, t, n - 1).value, o, log[n - 1], t)
  }

  lemma {:induction false} TurnAtIs(log: seq<Event>, o: Options, t: nat, n: nat)
    requires n <= |log|
    ensures TurnAt(log, o, t, n) == Turns(log[..n], o, t)
  {
    if n > 0 {
      TurnAtIs(log, o, t, n - 1);
      assert log[..n][..n - 1] == log[..n - 1];
    }
  }

  ghost predicate Goes(log: seq<Event>, o: Options, t: nat, n: nat) {
    n <= |log| && TurnAt(log, o, t, n).Some?
  }

  ghost function At(log: seq<Event>, o: Options, t: nat, n: nat): Turn
    requires Goes(log, o, t, n)
  {
    TurnAt(log, o, t, n).value
  }

  lemma {:induction false} GoesBefore(log: seq<Event>, o: Options, t: nat, i: nat, n: nat)
    requires Goes(log, o, t, n) && i <= n
    ensures Goes(log, o, t, i)
    decreases n
  {
    if i < n {
      GoesBefore(log, o, t, i, n - 1);
    }
  }

  /** What is remembered, and what a firing calls with, is the data of the latest firing that fire has started; a
      list that waits has passed nothing, and has no firing stacked. */
  ghost predicate IsLatest(q: Turn) {
    && (q.memory.Some? ==> |q.started| > 0 && q.memory.value == q.started[|q.started| - 1])
    && (q.current.Some? ==> q.fired && |q.started| > 0 && q.current.value == q.started[|q.started| - 1])
    && (q.current.None? ==> q.passed == [] && q.skip == 0 && (q.stack.Some? ==> q.stack.value == []))
    && (!q.live ==> q.stack.None? && q.memory.None? && q.passed == q.due == [])
  }

  lemma LatestOp(q: Turn, o: Options, op: Op, t: nat)
    requires IsLatest(q)
    ensures IsLatest(TurnOp(q, o, op, t))
  {}

  lemma LatestEvent(q: Turn, o: Options, e: Event, t: nat)
    requires IsLatest(q) && NextTurn(q, o, e, t).Some?
    ensures IsLatest(NextTurn(q, o, e, t).value)
  {
    if e.Did? {
      LatestOp(q, o, e.op, t);
    }
  }

  lemma {:induction false} LatestData(log: seq<Event>, o: Options, t: nat, n: nat)
    requires Goes(log, o, t, n)
    ensures IsLatest(At(log, o, t, n))
  {
    if n > 0 {
      GoesBefore(log, o, t, n - 1, n);
      LatestData(log, o, t, n - 1);
      LatestEvent(At(log, o, t, n - 1), o, log[n - 1], t);
    }
  }

  // ---------------------------------------------------------------------------
  // One firing

  ghost predicate IsOp(e: Event, t: nat) {
    e.Did? && !e.op.Settle? && e.op.target == t
  }

  /** Event i takes everything out of the list. */
  ghost predicate Clears(log: seq<Event>, o: Options, t: nat, i: nat) {
    i < |log| && IsOp(log[i], t)
    && (log[i].op.Empty? || log[i].op.Disable?
        || (log[i].op.Lock? && Goes(log, o, t, i) && At(log, o, t, i).memory.None?))
  }

  /** From event i to event n, no firing of the list ends, and nothing takes everything out of it. */
  ghost predicate Calm(log: seq<Event>, o: Options, t: nat, i: nat, n: nat) {
    forall j :: i <= j < n && j < |log| ==> log[j] != Ended(t) && !Clears(log, o, t, j)
  }

  /** Callbacks called from event i to event n. */
  ghost function CalledIn(log: seq<Event>, t: nat, i: nat, n: nat): seq<Callback>
    requires i <= n <= |log|
    decreases n
  {
    if n == i then []
    else CalledIn(log, t, i, n - 1) + CalledBy(log[n - 1], t)
  }

  /** Callbacks pushed to the list from event i to event n. */
  ghost function AddedIn(log: seq<Event>, o: Options, t: nat, i: nat, n: nat): seq<Callback>
    requires i <= n && Goes(log, o, t, n)
    decreases n
  {
    if n == i then []
    else
      GoesBefore(log, o, t, n - 1, n);
      AddedIn(log, o, t, i, n - 1) + PushedBy(At(log, o, t, n - 1), o, log[n - 1], t)
  }

  ghost function PushedBy(q: Turn, o: Options, e: Event, t: nat): seq<Callback> {
    if IsOp(e, t) && e.op.Add? && q.live then Fresh(q.passed + q.due, e.op.cbs, o.unique) else []
  }

  /** Callbacks other than those with these numbers. */
  ghost function Keep(cbs: seq<Callback>, out: set<nat>): seq<Callback> {
    if |cbs| == 0 then [] else (if cbs[0].id in out then [] else [cbs[0]]) + Keep(cbs[1..], out)
  }

  /** What is removed from event i to event n is among these. */
  ghost predicate RemovesOnly(log: seq<Event>, t: nat, i: nat, n: nat, out: set<nat>) {
    forall j :: i <= j < n && j < |log| && IsOp(log[j], t) && log[j].op.Remove? ==> log[j].op.id in out
  }

  lemma {:induction false} KeepConcat(a: seq<Callback>, b: seq<Callback>, out: set<nat>)
    ensures Keep(a + b, out) == Keep(a, out) + Keep(b, out)
  {
    if |a| == 0 {
      assert a + b == b;
    } else {
      KeepConcat(a[1..], b, out);
      assert (a + b)[1..] == a[1..] + b;
      var h := if a[0].id in out then [] else [a[0]];
      assert h + (Keep(a[1..], out) + Keep(b, out)) == (h + Keep(a[1..], out)) + Keep(b, out);
    }
  }

  lemma {:induction false} KeepWithout(a: seq<Callback>, id: nat, out: set<nat>)
    requires id in out
    ensures Keep(Without(a, id), out) == Keep(a, out)
  {
    if |a| > 0 {
      var h := if a[0].id == id then [] else [a[0]];
      KeepWithout(a[1..], id, out);
      KeepConcat(h, Without(a[1..], id), out);
    }
  }

  lemma {:induction false} KeepAll(a: seq<Callback>)
    ensures Keep(a, {}) == a
  {
    if |a| > 0 {
      KeepAll(a[1..]);
    }
  }

  /** What one event in a firing does to what is called and due. */
  ghost predicate Firing(q: Turn) {
    q.current.Some? && q.live && q.skip == 0 && IsLatest(q)
  }

  lemma CalledStep(q: Turn, o: Options, e: Event, t: nat, out: set<nat>, called: seq<Callback>)
    requires Firing(q) && NextTurn(q, o, e, t).Some? && e.Called? && e.target == t
    ensures var r := NextTurn(q, o, e, t).value;
      r.current == q.current && r.live && r.skip == 0 && (called + [e.cb]) + r.due == called + q.due
  {}

  lemma AddedStep(q: Turn, o: Options, e: Event, t: nat, out: set<nat>, called: seq<Callback>)
    requires Firing(q) && IsOp(e, t) && e.op.Add?
    ensures var r, more := TurnOp(q, o, e.op, t), PushedBy(q, o, e, t);
      && r.current == q.current && r.live && r.skip == 0
      && Keep(called + r.due, out) == Keep(called + q.due, out) + Keep(more, out)
  {
    var more := Fresh(q.passed + q.due, e.op.cbs, o.unique);
    assert more[..0] == [] && more[0..] == more;
    KeepConcat(called + q.due, more, out);
    assert called + (q.due + more) == (called + q.due) + more;
  }

  lemma RemovedStep(q: Turn, o: Options, e: Event, t: nat, out: set<nat>, called: seq<Callback>)
    requires Firing(q) && IsOp(e, t) && e.op.Remove? && e.op.id in out
    ensures var r := TurnOp(q, o, e.op, t);
      && r.current == q.current && r.live && r.skip == 0
      && Keep(called + r.due, out) == Keep(called + q.due, out)
  {
    KeepConcat(called, q.due, out);
    KeepConcat(called, Without(q.due, e.op.id), out);
    KeepWithout(q.due, e.op.id, out);
  }

  lemma OtherStep(q: Turn, o: Options, e: Event, t: nat)
    requires Firing(q) && NextTurn(q, o, e, t).Some? && e != Ended(t) && !(e.Called? && e.target == t)
    requires IsOp(e, t) ==> e.op.Fire? || (e.op.Lock? && q.memory.Some?)
    ensures var r := NextTurn(q, o, e, t).value; r.current == q.current && r.live && r.skip == 0 && r.due == q.due
  {}

  ghost function CalledBy(e: Event, t: nat): seq<Callback> {
    if e.Called? && e.target == t then [e.cb] else []
  }

  lemma FiringStep(q: Turn, o: Options, e: Event, t: nat, out: set<nat>, called: seq<Callback>)
    requires Firing(q) && NextTurn(q, o, e, t).Some? && e != Ended(t)
    requires IsOp(e, t) ==> !e.op.Empty? && !e.op.Disable? && !(e.op.Lock? && q.memory.None?)
    requires IsOp(e, t) && e.op.Remove? ==> e.op.id in out
    ensures var r := NextTurn(q, o, e, t).value;
      && r.current == q.current && r.live && r.skip == 0
      && Keep((called + CalledBy(e, t)) + r.due, out) == Keep(called + q.due, out) + Keep(PushedBy(q, o, e, t), out)
  {
    var none: seq<Callback> := [];
    assert called + none == called && Keep(none, out) == none;
    assert Keep(called + q.due, out) + none == Keep(called + q.due, out);
    if e.Called? && e.target == t {
      CalledStep(q, o, e, t, out, called);
    } else if IsOp(e, t) && e.op.Add? {
      AddedStep(q, o, e, t, out, called);
    } else if IsOp(e, t) && e.op.Remove? {
      RemovedStep(q, o, e, t, out, called);
    } else {
      OtherStep(q, o, e, t);
    }
  }

  /** While a firing goes on: what has been called and what is due are what was due, and what was added since, but
      for what is removed; and the firing's data stays. */
  ghost predicate GoneOn(p: Turn, q: Turn, called: seq<Callback>, added: seq<Callback>, out: set<nat>) {
    q.current == p.current && q.live && q.skip == 0 && Keep(called + q.due, out) == Keep(p.due + added, out)
  }

  lemma GoesOnStep(p: Turn, q: Turn, o: Options, e: Event, t: nat, out: set<nat>, called: seq<Callback>,
                   added: seq<Callback>)
    requires p.current.Some? && IsLatest(q) && GoneOn(p, q, called, added, out)
    requires NextTurn(q, o, e, t).Some? && e != Ended(t)
    requires IsOp(e, t) ==> !e.op.Empty? && !e.op.Disable? && !(e.op.Lock? && q.memory.None?)
    requires IsOp(e, t) && e.op.Remove? ==> e.op.id in out
    ensures GoneOn(p, NextTurn(q, o, e, t).value, called + CalledBy(e, t), added + PushedBy(q, o, e, t), out)
  {
    var more := PushedBy(q, o, e, t);
    FiringStep(q, o, e, t, out, called);
    KeepConcat(p.due + added, more, out);
    assert p.due + (added + more) == (p.due + added) + more;
  }

  ghost predicate IsFiringAt(log: seq<Event>, o: Options, t: nat, i: nat) {
    Goes(log, o, t, i) && At(log, o, t, i).current.Some? && At(log, o, t, i).live && At(log, o, t, i).skip == 0
  }

  lemma {:induction false} FiringGoesOn(log: seq<Event>, o: Options, t: nat, i: nat, n: nat, out: set<nat>)
    requires i <= n && Goes(log, o, t, n) && Calm(log, o, t, i, n) && RemovesOnly(log, t, i, n, out)
    requires IsFiringAt(log, o, t, i)
    ensures GoneOn(At(log, o, t, i), At(log, o, t, n), CalledIn(log, t, i, n), AddedIn(log, o, t, i, n), out)
    decreases n
  {
    var p := At(log, o, t, i);
    if n == i {
      var none: seq<Callback> := [];
      assert none + p.due == p.due == p.due + none;
    } else {
      GoesBefore(log, o, t, n - 1, n);
      FiringGoesOn(log, o, t, i, n - 1, out);
      LatestData(log, o, t, n - 1);
      assert !Clears(log, o, t, n - 1);
      GoesOnStep(p, At(log, o, t, n - 1), o, log[n - 1], t, out, CalledIn(log, t, i, n - 1),
                 AddedIn(log, o, t, i, n - 1));
    }
  }

  /** All calls from event i to event n have this data. */
  ghost predicate CallsHave(log: seq<Event>, t: nat, i: nat, n: nat, data: Option<Data>) {
    forall j :: i <= j < n && j < |log| && log[j].Called? && log[j].target == t ==> Some(log[j].data) == data
  }

  lemma {:induction false} FiringsData(log: seq<Event>, o: Options, t: nat, i: nat, n: nat)
    requires i <= n && Goes(log, o, t, n) && Calm(log, o, t, i, n)
    requires IsFiringAt(log, o, t, i)
    requires exists out :: RemovesOnly(log, t, i, n, out)
    ensures CallsHave(log, t, i, n, At(log, o, t, i).current)
    decreases n
  {
    if i < n {
      GoesBefore(log, o, t, n - 1, n);
      var out :| RemovesOnly(log, t, i, n, out);
      assert RemovesOnly(log, t, i, n - 1, out);
      FiringsData(log, o, t, i, n - 1);
      FiringGoesOn(log, o, t, i, n - 1, out);
    }
  }

  /** A firing that comes to its end has called every callback that was in the list when it began, or was added
      meanwhile, and was not taken out, exactly once, in order, with its data. */
  ghost predicate CallsAll(log: seq<Event>, o: Options, t: nat, i: nat, n: nat, out: set<nat>)
    requires i <= n && Goes(log, o, t, n) && Goes(log, o, t, i)
  {
    && Keep(CalledIn(log, t, i, n), out) == Keep(At(log, o, t, i).due + AddedIn(log, o, t, i, n), out)
    && CallsHave(log, t, i, n, At(log, o, t, i).current)
  }

  lemma FiringEnds(log: seq<Event>, o: Options, t: nat, i: nat, n: nat, out: set<nat>)
    requires i <= n < |log| && Goes(log, o, t, n + 1) && log[n] == Ended(t)
    requires Calm(log, o, t, i, n) && RemovesOnly(log, t, i, n, out)
    requires IsFiringAt(log, o, t, i)
    requires Goes(log, o, t, n) && !At(log, o, t, n).stops
    ensures CallsAll(log, o, t, i, n, out)
  {
    FiringGoesOn(log, o, t, i, n, out);
    FiringsData(log, o, t, i, n);
    var none: seq<Callback> := [];
    assert CalledIn(log, t, i, n) + none == CalledIn(log, t, i, n);
  }

  // ---------------------------------------------------------------------------
  // When firings begin

  /** A fire that finds a list that is there, is not being fired, and may be fired, starts a firing of all of it. */
  lemma FireBegins(log: seq<Event>, o: Options, t: nat, i: nat, data: Data)
    requires Goes(log, o, t, i + 1) && log[i] == Did(Fire(t, data))
    requires Goes(log, o, t, i) && At(log, o, t, i).live && At(log, o, t, i).current.None?
    requires !(At(log, o, t, i).fired && At(log, o, t, i).stack.None?)
    ensures var p, q := At(log, o, t, i), At(log, o, t, i + 1);
      q.current == Some(data) && q.live && q.skip == p.skip && q.passed == p.passed && q.due == p.due
  {}

  /** Callbacks added to a list that remembers, and is not being fired, are fired at once, and nothing else is. */
  lemma AddBegins(log: seq<Event>, o: Options, t: nat, i: nat, cbs: seq<Callback>)
    requires Goes(log, o, t, i + 1) && log[i] == Did(Add(t, cbs))
    requires Goes(log, o, t, i)
    requires At(log, o, t, i).live && At(log, o, t, i).current.None? && At(log, o, t, i).memory.Some?
    ensures var p, q := At(log, o, t, i), At(log, o, t, i + 1);
      && q.current == p.memory && q.live && q.skip == p.skip && q.passed == p.passed + p.due
      && q.due == Fresh(p.passed + p.due, cbs, o.unique)
  {}

  // ---------------------------------------------------------------------------
  // The order of firings

  /** The data of all calls of fire. */
  ghost function FiredWith(log: seq<Event>, t: nat): seq<Data> {
    if |log| == 0 then []
    else
      var e := log[|log| - 1];
      FiredWith(log[..|log| - 1], t) + if IsOp(e, t) && e.op.Fire? then [e.op.data] else []
  }

  /** The list is neither disabled nor locked. */
  ghost predicate Unlocked(log: seq<Event>, t: nat) {
    forall i :: 0 <= i < |log| && IsOp(log[i], t) ==> !log[i].op.Disable? && !log[i].op.Lock?
  }

  lemma OrderStep(q: Turn, o: Options, e: Event, t: nat, fired: seq<Data>)
    requires q.live && q.stack.Some? && NextTurn(q, o, e, t).Some? && IsLatest(q) && q.started + q.stack.value == fired
    requires IsOp(e, t) ==> !e.op.Disable? && !e.op.Lock?
    ensures var r := NextTurn(q, o, e, t).value;
      && r.live && r.stack.Some?
      && r.started + r.stack.value == fired + if IsOp(e, t) && e.op.Fire? then [e.op.data] else []
  {
    var none: seq<Data> := [];
    if IsOp(e, t) && e.op.Fire? {
      if q.current.Some? {
        assert q.started + (q.stack.value + [e.op.data]) == fired + [e.op.data];
      } else {
        assert q.started + none == q.started;
        assert (q.started + [e.op.data]) + none == fired + [e.op.data];
      }
    } else {
      assert fired + none == fired;
      if e == Ended(t) && |q.stack.value| > 0 {
        assert (q.started + [q.stack.value[0]]) + q.stack.value[1..] == q.started + q.stack.value;
      }
    }
  }

  /** On a list that can be fired again: the firings started, and those stacked, are those asked for, in order. */
  lemma {:induction false} FiringsInOrder(log: seq<Event>, o: Options, t: nat)
    requires !o.once && Turns(log, o, t).Some? && Unlocked(log, t)
    ensures var q := Turns(log, o, t).value;
      q.live && q.stack.Some? && q.started + q.stack.value == FiredWith(log, t)
  {
    if |log| > 0 {
      var n := |log| - 1;
      FiringsInOrder(log[..n], o, t);
      assert log[..n][..n] == log[..n];
      TurnAtIs(log[..n], o, t, n);
      LatestData(log[..n], o, t, n);
      OrderStep(Turns(log[..n], o, t).value, o, log[n], t, FiredWith(log[..n], t));
    }
  }

  // ---------------------------------------------------------------------------
  // Every run

  lemma RunGoes(options: seq<Options>, program: seq<Op>, steps: nat, t: nat, n: nat)
    requires t < |options|
    ensures var log := Run(Start(options, program), steps).log; n <= |log| ==> Goes(log, options[t], t, n)
  {
    var log := Run(Start(options, program), steps).log;
    RunTakesTurns(options, program, steps, t);
    assert log[..|log|] == log;
    TurnAtIs(log, options[t], t, |log|);
    if n <= |log| {
      GoesBefore(log, options[t], t, n, |log|);
    }
  }

  lemma {:induction false} NeverStops(log: seq<Event>, o: Options, t: nat, n: nat)
    requires Goes(log, o, t, n) && !o.stopOnFalse
    ensures !At(log, o, t, n).stops
  {
    if n > 0 {
      GoesBefore(log, o, t, n - 1, n);
      NeverStops(log, o, t, n - 1);
    }
  }

  /** Event f ends the firing that began before event i, on its own. */
  ghost predicate EndsCalmly(log: seq<Event>, o: Options, t: nat, i: nat, f: nat) {
    i <= f < |log| && log[f] == Ended(t) && Calm(log, o, t, i, f) && Goes(log, o, t, f) && !At(log, o, t, f).stops
  }

  /** A list of a run of a program, as its history has it. */
  ghost predicate IsHistory(log: seq<Event>, o: Options, t: nat) {
    exists options, program, steps :: OfRun(log, o, t, options, program, steps)
  }

  ghost predicate OfRun(log: seq<Event>, o: Options, t: nat, options: seq<Options>, program: seq<Op>, steps: nat) {
    t < |options| && o == options[t] && log == Run(Start(options, program), steps).log
  }

  lemma HistoryGoes(log: seq<Event>, o: Options, t: nat, n: nat)
    requires IsHistory(log, o, t) && n <= |log|
    ensures Goes(log, o, t, n)
  {
    var options, program, steps: nat :| OfRun(log, o, t, options, program, steps);
    RunGoes(options, program, steps, t, n);
  }

  /** In every run: from a fire that starts a firing to its end, unless the list is emptied or disabled or a callback
      stops the firing, every callback that was in the list, or is added, and is not removed meanwhile, is called
      once, in order, with the data of the firing. */
  lemma FireCallsAll(log: seq<Event>, o: Options, t: nat, i: nat, f: nat, data: Data, out: set<nat>)
    requires IsHistory(log, o, t) && i < |log| && log[i] == Did(Fire(t, data)) && Goes(log, o, t, i)
    requires At(log, o, t, i).live && At(log, o, t, i).current.None?
    requires !(At(log, o, t, i).fired && At(log, o, t, i).stack.None?)
    requires EndsCalmly(log, o, t, i + 1, f) && RemovesOnly(log, t, i + 1, f, out)
    ensures Keep(CalledIn(log, t, i + 1, f), out) == Keep(At(log, o, t, i).due + AddedIn(log, o, t, i + 1, f), out)
    ensures CallsHave(log, t, i + 1, f, Some(data))
  {
    HistoryGoes(log, o, t, i + 1);
    HistoryGoes(log, o, t, f + 1);
    FireBegins(log, o, t, i, data);
    LatestData(log, o, t, i);
    FiringEnds(log, o, t, i + 1, f, out);
  }

  /** In every run: callbacks added to a list that remembers its last firing, and is not being fired, are called
      before the firing that begins with that ends, and with the data of the latest firing. */
  lemma AddCallsAtOnce(log: seq<Event>, o: Options, t: nat, i: nat, f: nat, cbs: seq<Callback>, out: set<nat>)
    requires IsHistory(log, o, t) && i < |log| && log[i] == Did(Add(t, cbs)) && Goes(log, o, t, i)
    requires At(log, o, t, i).live && At(log, o, t, i).current.None? && At(log, o, t, i).memory.Some?
    requires EndsCalmly(log, o, t, i + 1, f) && RemovesOnly(log, t, i + 1, f, out)
    ensures var p := At(log, o, t, i);
      && |p.started| > 0 && CallsHave(log, t, i + 1, f, Some(p.started[|p.started| - 1]))
      && Keep(CalledIn(log, t, i + 1, f), out)
         == Keep(Fresh(p.due, cbs, o.unique) + AddedIn(log, o, t, i + 1, f), out)
  {
    HistoryGoes(log, o, t, i + 1);
    HistoryGoes(log, o, t, f + 1);
    AddBegins(log, o, t, i, cbs);
    LatestData(log, o, t, i);
    var none: seq<Callback> := [];
    assert none + At(log, o, t, i).due == At(log, o, t, i).due;
    FiringEnds(log, o, t, i + 1, f, out);
  }

  /** In every run: where a firing ends while others are stacked, the first of them begins, with the whole list. */
  lemma StackedFollow(log: seq<Event>, o: Options, t: nat, i: nat, f: nat, out: set<nat>)
    requires IsHistory(log, o, t) && i < |log| && log[i] == Ended(t) && Goes(log, o, t, i)
    requires At(log, o, t, i).live && At(log, o, t, i).stack.Some? && |At(log, o, t, i).stack.value| > 0
    requires EndsCalmly(log, o, t, i + 1, f) && RemovesOnly(log, t, i + 1, f, out)
    ensures var p := At(log, o, t, i);
      && Keep(CalledIn(log, t, i + 1, f), out) == Keep((p.passed + p.due) + AddedIn(log, o, t, i + 1, f), out)
      && CallsHave(log, t, i + 1, f, Some(p.stack.value[0]))
  {
    HistoryGoes(log, o, t, i + 1);
    HistoryGoes(log, o, t, f + 1);
    FiringEnds(log, o, t, i + 1, f, out);
  }

  /** At the end of every program that ends: a list that can be fired again, and was neither disabled nor locked, has
      been fired once for each call of fire, in that order. */
  lemma AllFiringsHappen(options: seq<Options>, program: seq<Op>, steps: nat, t: nat)
    requires t < |options| && !options[t].once
    requires var m := Run(Start(options, program), steps); |m.control| == 0 && Unlocked(m.log, t)
    ensures var log := Run(Start(options, program), steps).log;
      Turns(log, options[t], t).Some? && Turns(log, options[t], t).value.started == FiredWith(log, t)
  {
    var m := Run(Start(options, program), steps);
    RunTakesTurns(options, program, steps, t);
    FiringsInOrder(m.log, options[t], t);
    assert m.log[..|m.log|] == m.log;
    TurnAtIs(m.log, options[t], t, |m.log|);
    LatestData(m.log, options[t], t, |m.log|);
    var none: seq<Data> := [];
    var q := Turns(m.log, options[t], t).value;
    assert q.started + none == q.started;
  }

  // ---------------------------------------------------------------------------
  // Lists that are only added to, fired and locked

  lemma StepLog(m: Machine)
    ensures m.log <= Step(m).log
  {}

  lemma {:induction false} LogGrows(m: Machine, n: nat)
    ensures m.log <= Run(m, n).log
  {
    if n > 0 {
      LogGrows(m, n - 1);
      StepLog(Run(m, n - 1));
    }
  }

  ghost predicate OnlyAddedFiredLocked(log: seq<Event>, t: nat) {
    forall i :: 0 <= i < |log| && IsOp(log[i], t) ==> log[i].op.Add? || log[i].op.Fire? || log[i].op.Lock?
  }

  /** A firing of such a list, if it remembers, is calm. */
  lemma {:induction false} StaysCalm(log: seq<Event>, o: Options, t: nat, i: nat, n: nat)
    requires i <= n && Goes(log, o, t, n) && OnlyAddedFiredLocked(log, t) && o.memory
    requires IsFiringAt(log, o, t, i) && At(log, o, t, i).memory.Some?
    requires forall j :: i <= j < n && j < |log| ==> log[j] != Ended(t)
    ensures Calm(log, o, t, i, n) && At(log, o, t, n).memory.Some?
    decreases n
  {
    if i < n {
      GoesBefore(log, o, t, n - 1, n);
      StaysCalm(log, o, t, i, n - 1);
    }
  }
}
