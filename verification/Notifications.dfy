/** What notify does: every handler on a deferred's progress list is called with the data of every notify. */
module Notifications {
  import opened CallbackLists
  import opened CallbackPrograms
  import opened CallbackTurns
  import opened CallbackRounds
  import opened Deferreds

  function Progress(d: nat): nat {
    ListOf(d, PROGRESS)
  }

  /** Progress lists are only added to, fired and locked. */
  ghost function Mild(d: nat): Op -> bool {
    (op: Op) => !op.Settle? && op.target == Progress(d) ==> op.Add? || op.Fire? || op.Lock?
  }

  lemma OwnsAreMild(d: nat, e: nat, i: nat)
    requires i < 3
    ensures ListFits(NewOf(e, i), Mild(d))
  {
    if i < 2 {
      forall k | 0 <= k < 3 ensures CallbackFits(Own(e, i)[k], Mild(d)) {
        assert Mild(d)(OwnOp(e, i, k));
      }
      PushedFits([], Own(e, i), false, Mild(d));
    }
  }

  lemma MildOps(program: seq<Op>, d: nat)
    requires OpsFit(program, Outside(d))
    ensures OpsFit(program, Mild(d))
  {
    forall i | 0 <= i < |program| ensures OpFits(program[i], Mild(d)) {
      OpWeaker(program[i], Outside(d), Mild(d));
    }
  }

  lemma NewIsMild(deferreds: nat, program: seq<Op>, d: nat)
    requires OpsFit(program, Outside(d))
    ensures Fits(New(deferreds, program), Mild(d), {})
  {
    var m := New(deferreds, program);
    MildOps(program, d);
    forall t: nat | t < |m.lists| ensures ListFits(m.lists[t], Mild(d)) {
      OwnsAreMild(d, t / 3, t % 3);
    }
  }

  lemma MildHistory(deferreds: nat, program: seq<Op>, d: nat, steps: nat)
    requires OpsFit(program, Outside(d))
    ensures OnlyAddedFiredLocked(Run(New(deferreds, program), steps).log, Progress(d))
  {
    NewIsMild(deferreds, program, d);
    RunFits(New(deferreds, program), Mild(d), steps);
  }

  /** The progress list takes turns. */
  lemma ProgressTurns(deferreds: nat, program: seq<Op>, d: nat, steps: nat)
    requires d < deferreds
    ensures var m, t := Run(New(deferreds, program), steps), Progress(d);
      t < |m.lists| && TakesTurns(m, t) && m.lists[t].options == MEMORY
  {
    NewInv(deferreds, program);
    NewLists(deferreds, program, d);
    NewTakesTurns(New(deferreds, program), Progress(d), MEMORY, program);
    StepsTurn(New(deferreds, program), steps, Progress(d));
  }

  lemma ProgressGoes(deferreds: nat, program: seq<Op>, d: nat, steps: nat, n: nat)
    requires d < deferreds
    ensures var log := Run(New(deferreds, program), steps).log; n <= |log| ==> Goes(log, MEMORY, Progress(d), n)
  {
    var log := Run(New(deferreds, program), steps).log;
    ProgressTurns(deferreds, program, d, steps);
    assert log[..|log|] == log;
    TurnAtIs(log, MEMORY, Progress(d), |log|);
    if n <= |log| {
      GoesBefore(log, MEMORY, Progress(d), n, |log|);
    }
  }

  /** A deferred that has not settled, when a user's operation is next or the program has ended, is pending. */
  lemma StillPending(m: Machine, d: nat, s: Stage, op: Op)
    requires AtStage(m, d, s) && StateOf(m, d) == PENDING && op.Fire? && (IsNext(m, op) || |m.control| == 0)
    ensures Progress(d) < |m.lists| && ProgressList(m.lists[Progress(d)], false)
  {
    StateOfStage(m, d, s);
    if s.Settling? {
      var lower, data :| InSettling(m, d, s.i, s.k, s.phase, lower, data);
      OwnIsNext(m, d, s.i, s.k, s.phase, lower, data, op);
    }
  }

  lemma RunStillPending(deferreds: nat, program: seq<Op>, d: nat, steps: nat, m: Machine, op: Op)
    requires d < deferreds && OpsFit(program, Outside(d)) && m == Run(New(deferreds, program), steps)
    requires StateOf(m, d) == PENDING && op.Fire? && (IsNext(m, op) || |m.control| == 0)
    ensures Progress(d) < |m.lists| && ProgressList(m.lists[Progress(d)], false)
  {
    StartsPending(deferreds, program, d);
    var end, s := RunStage(New(deferreds, program), d, Pending, steps);
    StillPending(end, d, s, op);
  }

  /** Event f is the first end of a firing of the list from event i on. */
  ghost predicate FirstEnd(log: seq<Event>, t: nat, i: nat, f: nat) {
    i <= f < |log| && log[f] == Ended(t) && forall j :: i <= j < f ==> log[j] != Ended(t)
  }

  ghost function FirstEnds(log: seq<Event>, t: nat, i: nat): iset<nat> {
    iset f: nat | FirstEnd(log, t, i, f)
  }

  /** A firing of a progress list, from its beginning before event i to its end. */
  lemma ProgressCalls(log: seq<Event>, t: nat, i: nat, f: nat)
    requires Goes(log, MEMORY, t, f + 1) && OnlyAddedFiredLocked(log, t) && FirstEnd(log, t, i, f)
    requires IsFiringAt(log, MEMORY, t, i) && At(log, MEMORY, t, i).memory.Some?
    ensures Goes(log, MEMORY, t, f) && CallsHave(log, t, i, f, At(log, MEMORY, t, i).current)
    ensures CalledIn(log, t, i, f) == At(log, MEMORY, t, i).due + AddedIn(log, MEMORY, t, i, f)
  {
    GoesBefore(log, MEMORY, t, f, f + 1);
    StaysCalm(log, MEMORY, t, i, f);
    NeverStops(log, MEMORY, t, f);
    FiringEnds(log, MEMORY, t, i, f, {});
    KeepAll(CalledIn(log, t, i, f));
    KeepAll(At(log, MEMORY, t, i).due + AddedIn(log, MEMORY, t, i, f));
  }

  /** A firing that notify starts calls what was in the list and what is added meanwhile. */
  lemma ProgressFiring(log: seq<Event>, t: nat, i: nat, f: nat, data: Data)
    requires Goes(log, MEMORY, t, i + 1) && Goes(log, MEMORY, t, f + 1) && OnlyAddedFiredLocked(log, t)
    requires FirstEnd(log, t, i + 1, f) && log[i] == Did(Fire(t, data)) && Goes(log, MEMORY, t, i)
    requires var p := At(log, MEMORY, t, i); p.live && p.current.None? && p.stack.Some?
    ensures Goes(log, MEMORY, t, f) && CallsHave(log, t, i + 1, f, Some(data))
    ensures CalledIn(log, t, i + 1, f) == At(log, MEMORY, t, i).due + AddedIn(log, MEMORY, t, i + 1, f)
  {
    FireBegins(log, MEMORY, t, i, data);
    LatestData(log, MEMORY, t, i);
    ProgressCalls(log, t, i + 1, f);
  }

  /** So does one that waited for the firing before it. */
  lemma StackedFiring(log: seq<Event>, t: nat, i: nat, f: nat)
    requires Goes(log, MEMORY, t, i + 1) && Goes(log, MEMORY, t, f + 1) && OnlyAddedFiredLocked(log, t)
    requires FirstEnd(log, t, i + 1, f) && log[i] == Ended(t) && Goes(log, MEMORY, t, i)
    requires var p := At(log, MEMORY, t, i); p.live && p.stack.Some? && |p.stack.value| > 0
    ensures var p := At(log, MEMORY, t, i);
      && Goes(log, MEMORY, t, f) && CallsHave(log, t, i + 1, f, Some(p.stack.value[0]))
      && CalledIn(log, t, i + 1, f) == (p.passed + p.due) + AddedIn(log, MEMORY, t, i + 1, f)
  {
    ProgressCalls(log, t, i + 1, f);
  }

  /** The turn of an earlier moment of a run is found in the later history. */
  lemma {:induction false} EarlierTurn(log: seq<Event>, later: seq<Event>, o: Options, t: nat, n: nat)
    requires log <= later && n <= |log|
    ensures TurnAt(later, o, t, n) == TurnAt(log, o, t, n)
  {
    if n > 0 {
      EarlierTurn(log, later, o, t, n - 1);
    }
  }

  /** The turn of the progress list while it waits. */
  lemma WaitingTurn(deferreds: nat, program: seq<Op>, d: nat, steps: nat, m: Machine, later: seq<Event>)
    requires d < deferreds && m == Run(New(deferreds, program), steps) && m.log <= later
    ensures var t := Progress(d);
      && t < |m.lists| && Goes(later, MEMORY, t, |m.log|)
      && (!m.lists[t].firing && m.lists[t].list.Some? && m.lists[t].stack.Some? ==>
           var q := At(later, MEMORY, t, |m.log|);
           q.live && q.current.None? && q.stack.Some? && q.due == m.lists[t].list.value)
  {
    var t := Progress(d);
    ProgressTurns(deferreds, program, d, steps);
    assert m.log[..|m.log|] == m.log;
    TurnAtIs(m.log, MEMORY, t, |m.log|);
    EarlierTurn(m.log, later, MEMORY, t, |m.log|);
    var none: seq<Callback> := [];
    var q := At(later, MEMORY, t, |m.log|);
    assert none + q.due == q.due;
  }

  /** The machines that perform this operation next. */
  ghost function Before(op: Op): iset<Machine> {
    iset m: Machine | IsNext(m, op)
  }

  lemma StepLogs(m: Machine, op: Op)
    requires m in Before(op)
    ensures m in Logging(m.log + [Did(op)])
  {}

  /** What the step after some steps has logged is in all later histories. */
  lemma {:induction false} LoggedFrom(start: Machine, steps: nat, later: nat, m: Machine, log: seq<Event>)
      returns (r: Machine)
    requires steps < later && m == Run(start, steps) && m in Logging(log)
    ensures r == Run(start, later) && log <= r.log
    decreases later
  {
    if later == steps + 1 {
      RunOne(start, later, m);
      r := Step(m);
    } else {
      var before := LoggedFrom(start, steps, later - 1, m, log);
      RunOne(start, later, before);
      StepLog(before);
      r := Step(before);
    }
  }

  /** The machines whose history is this one after one step. */
  ghost function Logging(log: seq<Event>): iset<Machine> {
    iset m: Machine | Step(m).log == log
  }

  lemma NotifiedLater(start: Machine, steps: nat, later: nat, op: Op, m: Machine, log: seq<Event>)
    requires steps <= later && m == Run(start, steps) && log == Run(start, later).log
    requires m in Before(op) && |log| > |m.log|
    ensures m.log <= log && log[|m.log|] == Did(op)
  {
    StepLogs(m, op);
    if steps < later {
      var r := LoggedFrom(start, steps, later, m, m.log + [Did(op)]);
    }
  }

  /** Event i of the history is a notify that finds this list, and not being fired. */
  ghost predicate Notified(log: seq<Event>, t: nat, i: nat, data: Data, cbs: seq<Callback>) {
    && i < |log| && log[i] == Did(Fire(t, data)) && Goes(log, MEMORY, t, i)
    && var p := At(log, MEMORY, t, i); p.live && p.current.None? && p.stack.Some? && p.due == cbs
  }

  lemma NotifyFound(deferreds: nat, program: seq<Op>, d: nat, steps: nat, data: Data, m: Machine, log: seq<Event>)
    requires d < deferreds && OpsFit(program, Outside(d)) && m == Run(New(deferreds, program), steps)
    requires IsNext(m, Fire(Progress(d), data)) && StateOf(m, d) == PENDING
    requires Progress(d) < |m.lists| && !m.lists[Progress(d)].firing
    requires m.log <= log && |log| > |m.log| && log[|m.log|] == Did(Fire(Progress(d), data))
    ensures m.lists[Progress(d)].list.Some?
    ensures Notified(log, Progress(d), |m.log|, data, m.lists[Progress(d)].list.value)
  {
    RunStillPending(deferreds, program, d, steps, m, Fire(Progress(d), data));
    WaitingTurn(deferreds, program, d, steps, m, log);
  }

  /** The callbacks called in the firing that begins with event i and ends with event f are these, and those added
      meanwhile, in order; they are called with this data. */
  ghost predicate Reached(log: seq<Event>, t: nat, i: nat, f: nat, data: Data, cbs: seq<Callback>) {
    && i + 1 <= f && Goes(log, MEMORY, t, f)
    && CalledIn(log, t, i + 1, f) == cbs + AddedIn(log, MEMORY, t, i + 1, f)
    && CallsHave(log, t, i + 1, f, Some(data))
  }

  lemma RunReaches(deferreds: nat, program: seq<Op>, d: nat, steps: nat, log: seq<Event>, i: nat, f: nat, data: Data,
                   cbs: seq<Callback>)
    requires d < deferreds && OpsFit(program, Outside(d)) && log == Run(New(deferreds, program), steps).log
    requires Notified(log, Progress(d), i, data, cbs) && f in FirstEnds(log, Progress(d), i + 1)
    ensures Reached(log, Progress(d), i, f, data, cbs)
  {
    MildHistory(deferreds, program, d, steps);
    ProgressGoes(deferreds, program, d, steps, i + 1);
    ProgressGoes(deferreds, program, d, steps, f);
    ProgressGoes(deferreds, program, d, steps, f + 1);
    ProgressFiring(log, Progress(d), i, f, data);
  }

  /** A notify on a deferred that has not settled, and whose progress handlers are not running, calls all of them
      once, in order, and those added until they have run, with what was notified. */
  lemma NotifyReaches(deferreds: nat, program: seq<Op>, d: nat, steps: nat, later: nat, data: Data, f: nat,
                      m: Machine, log: seq<Event>)
    requires d < deferreds && OpsFit(program, Outside(d)) && steps <= later
    requires m == Run(New(deferreds, program), steps) && log == Run(New(deferreds, program), later).log
    requires IsNext(m, Fire(Progress(d), data)) && StateOf(m, d) == PENDING
    requires Progress(d) < |m.lists| && !m.lists[Progress(d)].firing
    requires f in FirstEnds(log, Progress(d), |m.log| + 1)
    ensures m.lists[Progress(d)].list.Some?
    ensures Reached(log, Progress(d), |m.log|, f, data, m.lists[Progress(d)].list.value)
  {
    NotifiedLater(New(deferreds, program), steps, later, Fire(Progress(d), data), m, log);
    NotifyFound(deferreds, program, d, steps, data, m, log);
    RunReaches(deferreds, program, d, later, log, |m.log|, f, data, m.lists[Progress(d)].list.value);
  }

  lemma StackedBefore(q: Turn, o: Options, e: Event, t: nat)
    requires NextTurn(q, o, e, t).Some? && NextTurn(q, o, e, t).value.stack.Some?
    ensures q.stack.Some? && (IsOp(e, t) ==> !e.op.Disable? && !e.op.Lock?)
  {}

  lemma UnlockedMore(log: seq<Event>, t: nat, n: nat)
    requires |log| == n + 1 && Unlocked(log[..n], t)
    requires IsOp(log[n], t) ==> !log[n].op.Disable? && !log[n].op.Lock?
    ensures Unlocked(log, t)
  {
    forall i | 0 <= i < |log| && IsOp(log[i], t) ensures !log[i].op.Disable? && !log[i].op.Lock? {
      if i < n {
        assert log[..n][i] == log[i];
      }
    }
  }

  /** A list that can still be fired again was never locked or disabled. */
  lemma {:induction false} StackedIsUnlocked(log: seq<Event>, o: Options, t: nat)
    requires Turns(log, o, t).Some? && Turns(log, o, t).value.stack.Some?
    ensures Unlocked(log, t)
  {
    if |log| > 0 {
      var n := |log| - 1;
      StackedBefore(Turns(log[..n], o, t).value, o, log[n], t);
      StackedIsUnlocked(log[..n], o, t);
      UnlockedMore(log, t, n);
    }
  }

  lemma EndedRunFires(log: seq<Event>, o: Options, t: nat)
    requires !o.once && Turns(log, o, t).Some? && Unlocked(log, t) && Turns(log, o, t).value.current.None?
    ensures Turns(log, o, t).value.started == FiredWith(log, t)
  {
    FiringsInOrder(log, o, t);
    assert log[..|log|] == log;
    TurnAtIs(log, o, t, |log|);
    LatestData(log, o, t, |log|);
    var none: seq<Data> := [];
    var q := Turns(log, o, t).value;
    assert q.started + none == q.started;
  }

  /** At the end of every program, the progress handlers of a deferred that is still pending have been called in one
      firing for each notify, in that order. */
  lemma NotifiesHappen(deferreds: nat, program: seq<Op>, d: nat, steps: nat, m: Machine)
    requires d < deferreds && OpsFit(program, Outside(d))
    requires m == Run(New(deferreds, program), steps) && |m.control| == 0 && StateOf(m, d) == PENDING
    ensures var q := Turns(m.log, MEMORY, Progress(d));
      q.Some? && q.value.current.None? && q.value.started == FiredWith(m.log, Progress(d))
  {
    var t := Progress(d);
    RunStillPending(deferreds, program, d, steps, m, Fire(t, 0));
    ProgressTurns(deferreds, program, d, steps);
    StackedIsUnlocked(m.log, MEMORY, t);
    EndedRunFires(m.log, MEMORY, t);
  }
}
