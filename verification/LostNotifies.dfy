/** A notify that has to wait for progress handlers that are running is lost if the deferred settles before its turn;
    no other is.  The lock that settling puts on the progress list drops the firings that wait. */
module LostNotifies {
  import opened CallbackLists
  import opened CallbackPrograms
  import opened CallbackTurns
  import opened CallbackRounds
  import opened Deferreds
  import opened Notifications

  // ---------------------------------------------------------------------------
  // After the lock

  /** No fire will start a firing any more. */
  ghost predicate NoMore(q: Turn) {
    q.stack.None? && (q.fired || !q.live) && (q.memory.Some? ==> q.fired)
  }

  lemma NoMoreStep(q: Turn, o: Options, e: Event, t: nat)
    requires NoMore(q) && NextTurn(q, o, e, t).Some? && !(IsOp(e, t) && e.op.Empty?)
    ensures var r := NextTurn(q, o, e, t).value; NoMore(r) && r.started == q.started
  {}

  lemma {:induction false} NoMoreStarts(log: seq<Event>, o: Options, t: nat, i: nat, n: nat)
    requires i <= n && Goes(log, o, t, n) && Goes(log, o, t, i) && NoMore(At(log, o, t, i))
    requires forall j :: i <= j < n && j < |log| && IsOp(log[j], t) ==> !log[j].op.Empty?
    ensures NoMore(At(log, o, t, n)) && At(log, o, t, n).started == At(log, o, t, i).started
    decreases n
  {
    if i < n {
      GoesBefore(log, o, t, n - 1, n);
      NoMoreStarts(log, o, t, i, n - 1);
      NoMoreStep(At(log, o, t, n - 1), o, log[n - 1], t);
    }
  }

  lemma FiredStep(q: Turn, o: Options, e: Event, t: nat)
    requires NextTurn(q, o, e, t).Some? && (q.memory.Some? ==> q.fired)
    ensures NextTurn(q, o, e, t).value.memory.Some? ==> NextTurn(q, o, e, t).value.fired
  {}

  lemma {:induction false} RemembersIfFired(log: seq<Event>, o: Options, t: nat, n: nat)
    requires Goes(log, o, t, n)
    ensures At(log, o, t, n).memory.Some? ==> At(log, o, t, n).fired
  {
    if n > 0 {
      GoesBefore(log, o, t, n - 1, n);
      RemembersIfFired(log, o, t, n - 1);
      FiredStep(At(log, o, t, n - 1), o, log[n - 1], t);
    }
  }

  /** The lock ends it. */
  lemma LockedStep(q: Turn, o: Options, t: nat)
    requires q.memory.Some? ==> q.fired
    ensures NoMore(TurnOp(q, o, Lock(t), t)) && TurnOp(q, o, Lock(t), t).started == q.started
  {}

  /** Of the firings asked for before a list is locked, those that wait then are dropped, and all others have been
      started; no later fire starts one, unless the list is emptied. */
  ghost predicate OnlyStarted(log: seq<Event>, o: Options, t: nat, i: nat)
    requires i < |log| && Goes(log, o, t, i)
  {
    var before := At(log, o, t, i);
    && before.stack.Some? && before.started + before.stack.value == FiredWith(log[..i], t)
    && forall n: nat :: i <= n <= |log| ==> Goes(log, o, t, n) && At(log, o, t, n).started == before.started
  }

  lemma LockDropsWaiting(log: seq<Event>, o: Options, t: nat, i: nat)
    requires !o.once && i < |log| && Goes(log, o, t, |log|) && Goes(log, o, t, i)
    requires log[i] == Did(Lock(t)) && Unlocked(log[..i], t)
    requires forall j :: i <= j < |log| && IsOp(log[j], t) ==> !log[j].op.Empty?
    ensures OnlyStarted(log, o, t, i)
  {
    TurnAtIs(log, o, t, i);
    FiringsInOrder(log[..i], o, t);
    GoesBefore(log, o, t, i + 1, |log|);
    RemembersIfFired(log, o, t, i);
    LockedStep(At(log, o, t, i), o, t);
    forall n: nat | i < n <= |log| ensures Goes(log, o, t, n) && At(log, o, t, n).started == At(log, o, t, i).started {
      GoesBefore(log, o, t, n, |log|);
      NoMoreStarts(log, o, t, i + 1, n);
    }
  }

  /** In every run of deferreds: when one settles, and its progress list is locked, exactly the notifies that do not
      wait for handlers that are running have been, or are being, carried out; and it stays so. */
  lemma SettlingDropsWaiting(deferreds: nat, program: seq<Op>, d: nat, steps: nat, log: seq<Event>, i: nat)
    requires d < deferreds && OpsFit(program, Outside(d)) && log == Run(New(deferreds, program), steps).log
    requires i < |log| && log[i] == Did(Lock(Progress(d))) && Unlocked(log[..i], Progress(d))
    ensures Goes(log, MEMORY, Progress(d), i) && OnlyStarted(log, MEMORY, Progress(d), i)
  {
    MildHistory(deferreds, program, d, steps);
    ProgressGoes(deferreds, program, d, steps, i);
    ProgressGoes(deferreds, program, d, steps, |log|);
    LockDropsWaiting(log, MEMORY, Progress(d), i);
  }

  // ---------------------------------------------------------------------------
  // A notify that is lost

  /** Notifies again, and then resolves. */
  function Notifier(): Callback {
    Callback(7, [Fire(2, 2), Fire(0, 3)], false)
  }

  function Program(): seq<Op> {
    [Add(2, [Notifier()]), Fire(2, 1)]
  }

  /** An operation is performed. */
  lemma Performs(start: Machine, lists: seq<CallbackList>, lower: seq<Frame>, states: map<nat, nat>, log: seq<Event>,
                 op: Op, rest: seq<Op>)
    requires Reaches(start, Machine(lists, lower + [Body([op] + rest)], states, log))
    ensures Reaches(start, Perform(Machine(lists, lower + [Body(rest)], states, log + [Did(op)]), op))
  {
    assert (lower + [Body([op] + rest)])[..|lower|] == lower && ([op] + rest)[1..] == rest;
    ReachesNext(start, Machine(lists, lower + [Body([op] + rest)], states, log));
  }

  /** The loop calls the next callback. */
  lemma Calls(start: Machine, lists: seq<CallbackList>, lower: seq<Frame>, states: map<nat, nat>, log: seq<Event>,
              t: nat, data: Data, cb: Callback)
    requires t < |lists| && lists[t].list.Some?
    requires 0 <= lists[t].firingIndex < lists[t].firingLength && lists[t].firingIndex < |lists[t].list.value|
    requires cb == lists[t].list.value[lists[t].firingIndex]
    requires Reaches(start, Machine(lists, lower + [Test(t, data)], states, log))
    ensures Reaches(start, Machine(lists, lower + [Returned(t, data, cb.returnsFalse)] + [Body(cb.body)], states,
                                   log + [Called(t, cb, data)]))
  {
    assert (lower + [Test(t, data)])[..|lower|] == lower;
    var f := Returned(t, data, cb.returnsFalse);
    assert lower + [f, Body(cb.body)] == lower + [f] + [Body(cb.body)];
    ReachesNext(start, Machine(lists, lower + [Test(t, data)], states, log));
  }

  lemma BodyOver(start: Machine, lists: seq<CallbackList>, lower: seq<Frame>, states: map<nat, nat>, log: seq<Event>)
    requires Reaches(start, Machine(lists, lower + [Body([])], states, log))
    ensures Reaches(start, Machine(lists, lower, states, log))
  {
    assert (lower + [Body([])])[..|lower|] == lower;
    ReachesNext(start, Machine(lists, lower + [Body([])], states, log));
  }

  lemma GoesOn(start: Machine, lists: seq<CallbackList>, lower: seq<Frame>, states: map<nat, nat>, log: seq<Event>,
               t: nat, data: Data)
    requires t < |lists| && Reaches(start, Machine(lists, lower + [Returned(t, data, false)], states, log))
    ensures Reaches(start, Machine(lists[t := lists[t].(firingIndex := lists[t].firingIndex + 1)],
                                   lower + [Test(t, data)], states, log))
  {
    assert (lower + [Returned(t, data, false)])[..|lower|] == lower;
    ReachesNext(start, Machine(lists, lower + [Returned(t, data, false)], states, log));
  }

  /** List 0 is fired with 3, and is at its own callback k. */
  ghost predicate AtOwn(lists: seq<CallbackList>, k: nat) {
    && |lists| == 3 && lists[0].list == Some(Own(0, DONE)) && lists[0].firingLength == 3 && lists[0].firingIndex == k
    && k <= 3
  }

  /** The loop calls own callback k, which performs its operation. */
  lemma OwnTurn(start: Machine, lists: seq<CallbackList>, lower: seq<Frame>, states: map<nat, nat>, log: seq<Event>,
                k: nat)
    requires AtOwn(lists, k) && k < 3 && Reaches(start, Machine(lists, lower + [Test(0, 3)], states, log))
    ensures Reaches(start, Perform(Machine(lists, lower + [Returned(0, 3, false)] + [Body([])], states,
                                           log + [Called(0, Own(0, DONE)[k], 3)] + [Did(OwnOp(0, DONE, k))]),
                                   OwnOp(0, DONE, k)))
  {
    var f, op := Returned(0, 3, false), OwnOp(0, DONE, k);
    Calls(start, lists, lower, states, log, 0, 3, Own(0, DONE)[k]);
    assert [op] + [] == [op];
    Performs(start, lists, lower + [f], states, log + [Called(0, Own(0, DONE)[k], 3)], op, []);
  }

  /** It returns, and the loop goes on. */
  lemma OwnOver(start: Machine, lists: seq<CallbackList>, lower: seq<Frame>, states: map<nat, nat>, log: seq<Event>,
                f: Frame)
    requires |lists| == 3 && f == Returned(0, 3, false)
    requires Reaches(start, Machine(lists, lower + [f] + [Body([])], states, log))
    ensures Reaches(start, Machine(lists[0 := lists[0].(firingIndex := lists[0].firingIndex + 1)],
                                   lower + [Test(0, 3)], states, log))
  {
    BodyOver(start, lists, lower + [f], states, log);
    GoesOn(start, lists, lower, states, log, 0, 3);
  }

  /** The events of own callback k. */
  function OwnEvents(k: nat): seq<Event>
    requires k < 3
  {
    [Called(0, Own(0, DONE)[k], 3), Did(OwnOp(0, DONE, k))]
  }

  lemma OwnSettles(start: Machine, lists: seq<CallbackList>, lower: seq<Frame>, states: map<nat, nat>,
                   log: seq<Event>) returns (next: seq<CallbackList>, settled: map<nat, nat>)
    requires AtOwn(lists, 0) && Reaches(start, Machine(lists, lower + [Test(0, 3)], states, log))
    ensures AtOwn(next, 1) && next[2] == lists[2]
    ensures Reaches(start, Machine(next, lower + [Test(0, 3)], settled, log + OwnEvents(0)))
  {
    OwnTurn(start, lists, lower, states, log, 0);
    settled := states[0 := 1];
    next := lists[0 := lists[0].(firingIndex := 1)];
    assert log + OwnEvents(0) == log + [Called(0, Own(0, DONE)[0], 3)] + [Did(OwnOp(0, DONE, 0))];
    OwnOver(start, lists, lower, settled, log + OwnEvents(0), Returned(0, 3, false));
  }

  lemma OwnDisabled(start: Machine, lists: seq<CallbackList>, lower: seq<Frame>, states: map<nat, nat>,
                    log: seq<Event>) returns (dead: seq<CallbackList>)
    requires AtOwn(lists, 1) && Reaches(start, Machine(lists, lower + [Test(0, 3)], states, log))
    ensures AtOwn(dead, 1) && dead[2] == lists[2]
    ensures Reaches(start, Machine(dead, lower + [Returned(0, 3, false)] + [Body([])], states, log + OwnEvents(1)))
  {
    OwnTurn(start, lists, lower, states, log, 1);
    dead := lists[1 := DisableIt(lists[1])];
    assert log + OwnEvents(1) == log + [Called(0, Own(0, DONE)[1], 3)] + [Did(OwnOp(0, DONE, 1))];
  }

  lemma OwnDisables(start: Machine, lists: seq<CallbackList>, lower: seq<Frame>, states: map<nat, nat>,
                    log: seq<Event>) returns (next: seq<CallbackList>)
    requires AtOwn(lists, 1) && Reaches(start, Machine(lists, lower + [Test(0, 3)], states, log))
    ensures AtOwn(next, 2) && next[2] == lists[2]
    ensures Reaches(start, Machine(next, lower + [Test(0, 3)], states, log + OwnEvents(1)))
  {
    var dead := OwnDisabled(start, lists, lower, states, log);
    next := dead[0 := dead[0].(firingIndex := 2)];
    OwnOver(start, dead, lower, states, log + OwnEvents(1), Returned(0, 3, false));
  }

  lemma OwnLocks(start: Machine, lists: seq<CallbackList>, lower: seq<Frame>, states: map<nat, nat>,
                 log: seq<Event>) returns (end: Machine)
    requires AtOwn(lists, 2) && Reaches(start, Machine(lists, lower + [Test(0, 3)], states, log))
    ensures Reaches(start, end) && end.log == log + OwnEvents(2)
  {
    OwnTurn(start, lists, lower, states, log, 2);
    var control := lower + [Returned(0, 3, false)] + [Body([])];
    assert log + OwnEvents(2) == log + [Called(0, Own(0, DONE)[2], 3)] + [Did(OwnOp(0, DONE, 2))];
    end := Perform(Machine(lists, control, states, log + OwnEvents(2)), OwnOp(0, DONE, 2));
  }

  lemma StartsWith()
    ensures New(1, Program())
         == Machine([NewOf(0, DONE), NewOf(0, FAIL), NewList(MEMORY)], [Body(Program())], map[], [])
  {
    assert New(1, Program()).lists == [NewOf(0, DONE), NewOf(0, FAIL), NewList(MEMORY)];
  }

  /** The done list before and after it is fired. */
  ghost predicate IsReady(l: CallbackList) {
    && l.list == Some(Own(0, DONE)) && l.stack.None? && !l.fired && !l.firing && l.firingStart == 0
  }

  lemma DoneIsReady()
    ensures IsReady(NewOf(0, DONE))
  {
    PushedAll([], Own(0, DONE));
    assert [] + Own(0, DONE) == Own(0, DONE);
  }

  /** The progress list once the notifier is added. */
  function WithNotifier(): CallbackList {
    NewList(MEMORY).(list := Some([Notifier()]))
  }

  lemma NotifierAdded(start: Machine) returns (lists: seq<CallbackList>)
    requires start == New(1, Program())
    ensures |lists| == 3 && IsReady(lists[0]) && lists[2] == WithNotifier()
    ensures Reaches(start, Machine(lists, [] + [Body([Fire(2, 1)] + [])], map[], [Did(Add(2, [Notifier()]))]))
  {
    StartsWith();
    DoneIsReady();
    ReachesSelf(start);
    var a, f, none: seq<Frame> := Add(2, [Notifier()]), Fire(2, 1), [];
    assert Program() == [a] + [f] && [f] + [] == [f];
    assert none + [Body(Program())] == [Body(Program())];
    Performs(start, start.lists, none, map[], [], a, [f]);
    PushedAll([], [Notifier()]);
    assert [] + [Notifier()] == [Notifier()] && [] + [Did(a)] == [Did(a)];
    lists := start.lists[2 := WithNotifier()];
  }

  /** The progress list, fired with 1, calls the notifier. */
  lemma NotifierCalled(start: Machine, lists: seq<CallbackList>, lower: seq<Frame>, log: seq<Event>)
      returns (next: seq<CallbackList>)
    requires |lists| == 3 && IsReady(lists[0]) && lists[2] == WithNotifier()
    requires Reaches(start, Machine(lists, lower + [Body([Fire(2, 1)] + [])], map[], log))
    ensures |next| == 3 && IsReady(next[0])
    ensures var l := next[2]; l.list.Some? && l.firing && l.stack == Some([])
    ensures Reaches(start, Machine(next, lower + [Body([])] + [Returned(2, 1, false)] + [Body(Notifier().body)], map[],
                                   log + [Did(Fire(2, 1))] + [Called(2, Notifier(), 1)]))
  {
    Performs(start, lists, lower, map[], log, Fire(2, 1), []);
    next := lists[2 := StartFire(WithNotifier(), 1)];
    Calls(start, next, lower + [Body([])], map[], log + [Did(Fire(2, 1))], 2, 1, Notifier());
  }

  /** It notifies again, which has to wait, and resolves. */
  lemma NotifierResolves(start: Machine, lists: seq<CallbackList>, lower: seq<Frame>, log: seq<Event>)
      returns (next: seq<CallbackList>)
    requires |lists| == 3 && IsReady(lists[0])
    requires var l := lists[2]; l.list.Some? && l.firing && l.stack == Some([])
    requires Reaches(start, Machine(lists, lower + [Body(Notifier().body)], map[], log))
    ensures AtOwn(next, 0) && next[2].stack == Some([2])
    ensures Reaches(start, Machine(next, lower + [Body([])] + [Test(0, 3)], map[],
                                   log + [Did(Fire(2, 2))] + [Did(Fire(0, 3))]))
  {
    var p, r := Fire(2, 2), Fire(0, 3);
    assert Notifier().body == [p] + [r] && [r] + [] == [r];
    Performs(start, lists, lower, map[], log, p, [r]);
    var waits := lists[2].(stack := Some([2]));
    assert [] + [2] == [2];
    Performs(start, lists[2 := waits], lower, map[], log + [Did(p)], r, []);
    next := lists[2 := waits][0 := StartFire(lists[0], 3)];
  }

  /** What happens in the program until the progress list is locked. */
  function Opening(): seq<Event> {
    [Did(Add(2, [Notifier()])), Did(Fire(2, 1)), Called(2, Notifier(), 1), Did(Fire(2, 2)), Did(Fire(0, 3))]
  }

  lemma NotifierRuns(start: Machine) returns (lists: seq<CallbackList>, lower: seq<Frame>)
    requires start == New(1, Program())
    ensures AtOwn(lists, 0) && lists[2].stack == Some([2])
    ensures Reaches(start, Machine(lists, lower + [Test(0, 3)], map[], Opening()))
  {
    var a, e := [Did(Add(2, [Notifier()]))], [Did(Fire(2, 1))] + [Called(2, Notifier(), 1)];
    var one := NotifierAdded(start);
    var two := NotifierCalled(start, one, [], a);
    lower := [] + [Body([])] + [Returned(2, 1, false)];
    lists := NotifierResolves(start, two, lower, a + [Did(Fire(2, 1))] + [Called(2, Notifier(), 1)]);
    assert a + [Did(Fire(2, 1))] + [Called(2, Notifier(), 1)] + [Did(Fire(2, 2))] + [Did(Fire(0, 3))] == Opening();
    lower := lower + [Body([])];
  }

  /** The deferred settles: the state before the lock, and after it. */
  lemma NotifierSettles(start: Machine) returns (before: Machine, end: Machine)
    requires start == New(1, Program())
    ensures Reaches(start, before) && before.log == Opening() + OwnEvents(0) + OwnEvents(1)
    ensures |before.lists| == 3 && before.lists[2].stack == Some([2])
    ensures Reaches(start, end) && end.log == Opening() + OwnEvents(0) + OwnEvents(1) + OwnEvents(2)
  {
    var lists, lower := NotifierRuns(start);
    var one, states := OwnSettles(start, lists, lower, map[], Opening());
    var two := OwnDisables(start, one, lower, states, Opening() + OwnEvents(0));
    before := Machine(two, lower + [Test(0, 3)], states, Opening() + OwnEvents(0) + OwnEvents(1));
    end := OwnLocks(start, two, lower, states, before.log);
  }

  lemma FiredOne(log: seq<Event>, e: Event, t: nat)
    ensures FiredWith(log + [e], t) == FiredWith(log, t) + if IsOp(e, t) && e.op.Fire? then [e.op.data] else []
  {
    assert (log + [e])[..|log|] == log;
  }

  /** No fire of list t. */
  lemma {:induction false} FiredNone(log: seq<Event>, more: seq<Event>, t: nat)
    requires forall i :: 0 <= i < |more| && IsOp(more[i], t) ==> !more[i].op.Fire?
    ensures FiredWith(log + more, t) == FiredWith(log, t)
    decreases |more|
  {
    if |more| == 0 {
      assert log + more == log;
    } else {
      var n := |more| - 1;
      FiredNone(log, more[..n], t);
      FiredOne(log + more[..n], more[n], t);
      assert log + more == log + more[..n] + [more[n]];
    }
  }

  lemma OpeningFires()
    ensures FiredWith(Opening() + OwnEvents(0) + OwnEvents(1), 2) == [1, 2]
  {
    var none: seq<Event> := [];
    var e := Opening();
    FiredNone(none, [e[0]], 2);
    FiredOne([e[0]], e[1], 2);
    FiredNone([e[0]] + [e[1]], [e[2]], 2);
    FiredOne([e[0]] + [e[1]] + [e[2]], e[3], 2);
    FiredNone([e[0]] + [e[1]] + [e[2]] + [e[3]], [e[4]] + OwnEvents(0) + OwnEvents(1), 2);
    assert none + [e[0]] == [e[0]];
    assert e + OwnEvents(0) + OwnEvents(1)
        == [e[0]] + [e[1]] + [e[2]] + [e[3]] + ([e[4]] + OwnEvents(0) + OwnEvents(1));
  }

  /** Called callbacks get the data of the last firing started. */
  lemma CallsAreLatest(log: seq<Event>, o: Options, t: nat, j: nat)
    requires j < |log| && Goes(log, o, t, j + 1) && log[j].Called? && log[j].target == t
    ensures Goes(log, o, t, j)
    ensures var p := At(log, o, t, j); |p.started| > 0 && p.started[|p.started| - 1] == log[j].data
  {
    GoesBefore(log, o, t, j, j + 1);
    LatestData(log, o, t, j);
  }

  /** The state of the list before the lock, found in a later history. */
  lemma StackFound(deferreds: nat, program: seq<Op>, steps: nat, m: Machine, later: seq<Event>)
    requires 0 < deferreds && m == Run(New(deferreds, program), steps) && m.log <= later
    ensures Progress(0) < |m.lists| && Goes(later, MEMORY, Progress(0), |m.log|)
    ensures At(later, MEMORY, Progress(0), |m.log|).stack == m.lists[Progress(0)].stack
  {
    ProgressTurns(deferreds, program, 0, steps);
    assert m.log[..|m.log|] == m.log;
    TurnAtIs(m.log, MEMORY, Progress(0), |m.log|);
    EarlierTurn(m.log, later, MEMORY, Progress(0), |m.log|);
  }

  /** The history up to the lock. */
  function Story(): seq<Event> {
    Opening() + OwnEvents(0) + OwnEvents(1) + OwnEvents(2)
  }

  lemma OnlyFirstStarted(steps: nat, before: Machine, log: seq<Event>)
    requires Reaches(New(1, Program()), before) && before.log == Opening() + OwnEvents(0) + OwnEvents(1)
    requires |before.lists| == 3 && before.lists[2].stack == Some([2])
    requires log == Run(New(1, Program()), steps).log && Story() <= log
    ensures forall n: nat :: 10 <= n <= |log| ==> Goes(log, MEMORY, 2, n) && At(log, MEMORY, 2, n).started == [1]
  {
    var k: nat :| Run(New(1, Program()), k) == before;
    var first := before.log;
    assert log[..9] == first && log[..10] == first + [log[9]] && Progress(0) == 2;
    StackFound(1, Program(), k, before, log);
    UserProgram();
    SettlingDropsWaiting(1, Program(), 0, steps, log, 10);
    OpeningFires();
    FiredOne(first, log[9], 2);
    assert At(log, MEMORY, 2, 9) == At(log, MEMORY, 2, 10);
    OneLeft(At(log, MEMORY, 2, 10).started);
  }

  lemma OneLeft(started: seq<Data>)
    requires started + [2] == [1, 2]
    ensures started == [1]
  {
    assert (started + [2])[..|started|] == [1, 2][..|started|];
  }

  lemma UserProgram()
    ensures OpsFit(Program(), Outside(0))
  {
    assert CallbackFits(Notifier(), Outside(0));
  }

  lemma StoryCalls(j: nat)
    requires j < |Story()| && Story()[j].Called? && Story()[j].target == 2
    ensures Story()[j].data == 1
  {
    assert Story() == Opening() + (OwnEvents(0) + OwnEvents(1) + OwnEvents(2));
  }

  /** What is called on the progress list in a history that begins with this one. */
  lemma OnlyOneCalled(log: seq<Event>, j: nat)
    requires Story() <= log && j < |log| && log[j].Called? && log[j].target == 2
    requires forall n: nat :: 10 <= n <= |log| ==> Goes(log, MEMORY, 2, n) && At(log, MEMORY, 2, n).started == [1]
    ensures log[j].data == 1
  {
    if j < |Story()| {
      assert log[j] == Story()[j];
      StoryCalls(j);
    } else {
      assert Goes(log, MEMORY, 2, j + 1) && At(log, MEMORY, 2, j).started == [1];
      CallsAreLatest(log, MEMORY, 2, j);
    }
  }

  /** One deferred; its only progress handler notifies again while it runs, and then resolves the deferred.  The
      second notify comes before the deferred settles, and its data reaches no handler in any run. */
  lemma NotifyLost(steps: nat, j: nat)
    requires j < |Run(New(1, Program()), steps).log|
    ensures var e := Run(New(1, Program()), steps).log[j]; e.Called? && e.target == 2 ==> e.data == 1
    ensures exists n :: Story() <= Run(New(1, Program()), n).log
    ensures Story()[3] == Did(Fire(2, 2)) && Story()[6] == Did(Settle(0, 1))
  {
    var start := New(1, Program());
    var before, end := NotifierSettles(start);
    var n: nat :| Run(start, n) == end;
    var all := if n < steps then steps else n;
    var log := Run(start, all).log;
    LogReaches(start, n, all);
    LogReaches(start, steps, all);
    OnlyFirstStarted(all, before, log);
    if log[j].Called? && log[j].target == 2 {
      OnlyOneCalled(log, j);
    }
  }

  lemma LogReaches(start: Machine, n: nat, all: nat)
    requires n <= all
    ensures Run(start, n).log <= Run(start, all).log
  {
    var _ := RunAdds(start, n, all - n);
    LogGrows(Run(start, n), all - n);
  }
}
