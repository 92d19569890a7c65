/** What empty does to a disabled "once memory" list: it brings the list back.  Whether callbacks are
    called again depends on when it was emptied. */
module CallbackReviving {
  import opened CallbackLists
  import opened CallbackQueues
  import opened CallbackFates
  import opened CallbackEmptying

  // ---------------------------------------------------------------------------
  // A disabled list is silent unless it is reopened

  /** Event i empties list t when it has never been fired, or while it is being fired. */
  ghost predicate Reopens(log: seq<Event>, i: nat, t: nat) {
    && i < |log| && log[i] == Did(Empty(t)) && Replay(log[..i], t).Some?
    && (Replay(log[..i], t).value.data.None? || Replay(log[..i], t).value.firing)
  }

  /** Nothing will be called: the list is not there, or its one firing is over. */
  ghost predicate Silent(q: Queue) {
    !q.remembers && if q.live then q.data.Some? && !q.firing else q.due == []
  }

  ghost predicate SilentSince(log: seq<Event>, t: nat, d: nat) {
    && Replay(log, t).Some? && Silent(Replay(log, t).value)
    && forall i :: d < i < |log| && log[i].Called? ==> log[i].target != t
  }

  lemma {:induction false} SilentUnlessReopened(log: seq<Event>, t: nat, d: nat)
    requires Replay(log, t).Some? && d < |log| && log[d] == Did(Disable(t))
    requires forall i :: d < i < |log| ==> !Reopens(log, i, t)
    ensures SilentSince(log, t, d)
    decreases |log|
  {
    var n := |log| - 1;
    if d < n {
      forall i | d < i < n ensures !Reopens(log[..n], i, t) {
        assert log[..n][i] == log[i] && log[..n][..i] == log[..i];
        assert !Reopens(log, i, t);
      }
      SilentUnlessReopened(log[..n], t, d);
      assert !Reopens(log, n, t);
      forall i | d < i < |log| && log[i].Called? ensures log[i].target != t {
        if i < n {
          assert log[..n][i] == log[i];
        }
      }
    }
  }

  lemma RanSinceEmpty(x: Entry, log: seq<Event>, t: nat, e: nat)
    requires IsTrue(x, log, t) && x.fate.RanAt? && e < x.fate.at && e < |log| && log[e] == Did(Empty(t))
    ensures e < x.added
  {
    assert TakesOut(log, e, x.cb, t);
  }

  /** What ran was added after any emptying before its call. */
  lemma AddedSinceEmpty(log: seq<Event>, t: nat, c: nat, e: nat) returns (k: nat)
    requires Replay(log, t).Some? && e < c < |log| && log[e] == Did(Empty(t))
    requires log[c].Called? && log[c].target == t
    ensures k < |Book(log, t)| && Book(log, t)[k].fate == RanAt(c) && e < Book(log, t)[k].added
  {
    BookBalances(log, t);
    assert Booked(Book(log, t), c);
    k :| 0 <= k < |Book(log, t)| && Book(log, t)[k].fate == RanAt(c);
    var x := Book(log, t)[k];
    RanSinceEmpty(x, log, t, e);
  }

  /** In every run: after disable a "once memory" list calls something only if it was emptied since, at
      a time when it had never been fired or was being fired; and what it calls was added after that. */
  lemma CallsOnlyIfReopened(options: seq<Options>, program: seq<Op>, steps: nat, t: nat, d: nat, c: nat)
    returns (e: nat, k: nat)
    requires t < |options| && OnceMemory(options[t])
    requires var log := Run(Start(options, program), steps).log;
      d < c < |log| && log[d] == Did(Disable(t)) && log[c].Called? && log[c].target == t
    ensures var log := Run(Start(options, program), steps).log;
      && d < e < c && Reopens(log, e, t)
      && k < |Book(log, t)| && Book(log, t)[k].fate == RanAt(c) && e < Book(log, t)[k].added
  {
    var log := Run(Start(options, program), steps).log;
    RunFollows(options, program, steps, t);
    e := ReopenedBefore(log, t, d, c);
    k := AddedSinceEmpty(log, t, c, e);
  }

  lemma ReopenedBefore(log: seq<Event>, t: nat, d: nat, c: nat) returns (e: nat)
    requires Replay(log, t).Some? && d < c < |log| && log[d] == Did(Disable(t))
    requires log[c].Called? && log[c].target == t
    ensures d < e < c && Reopens(log, e, t)
  {
    var upTo := log[..c + 1];
    ReplayPrefix(log, t, c + 1);
    e := ReopenedIn(upTo, t, d);
    assert upTo[..e] == log[..e] && upTo[e] == log[e];
  }

  /** A history that ends with a call. */
  lemma ReopenedIn(log: seq<Event>, t: nat, d: nat) returns (e: nat)
    requires Replay(log, t).Some? && d < |log| - 1 && log[d] == Did(Disable(t))
    requires log[|log| - 1].Called? && log[|log| - 1].target == t
    ensures d < e < |log| - 1 && Reopens(log, e, t)
  {
    if forall i :: d < i < |log| ==> !Reopens(log, i, t) {
      SilentUnlessReopened(log, t, d);
      assert false;
    }
    e :| d < e < |log| && Reopens(log, e, t);
  }

  /** In particular a disabled list that is not emptied calls nothing. */
  lemma DisabledIsSilent(options: seq<Options>, program: seq<Op>, steps: nat, t: nat, d: nat)
    requires t < |options| && OnceMemory(options[t])
    requires var log := Run(Start(options, program), steps).log;
      d < |log| && log[d] == Did(Disable(t)) && forall i :: d < i < |log| ==> log[i] != Did(Empty(t))
    ensures var log := Run(Start(options, program), steps).log;
      forall i :: d < i < |log| && log[i].Called? ==> log[i].target != t
  {
    RunFollows(options, program, steps, t);
    SilentUnlessReopened(Run(Start(options, program), steps).log, t, d);
  }

  /** What every queue of a history satisfies. */
  ghost predicate Sound(q: Queue) {
    && (!q.firing ==> q.passed == [] && q.skip == 0) && (q.data.None? ==> !q.remembers && !q.firing)
    && (q.live || q.passed == q.due == [])
  }

  lemma {:induction false} ReplaySound(log: seq<Event>, t: nat)
    requires Replay(log, t).Some?
    ensures Sound(Replay(log, t).value)
  {
    if |log| > 0 {
      ReplaySound(log[..|log| - 1], t);
    }
  }

  lemma {:induction false} RevivesIn(log: seq<Event>, t: nat, e: nat)
    requires Replay(log, t).Some? && e < |log| && log[e] == Did(Empty(t))
    requires Replay(log[..e], t).Some? && Replay(log[..e], t).value.data.None?
    ensures Replay(log, t) == Replay(log[e + 1..], t)
    decreases |log|
  {
    var n := |log| - 1;
    if e == n {
      ReplaySound(log[..n], t);
      assert log[e + 1..] == [];
    } else {
      assert log[..n][..e] == log[..e];
      RevivesIn(log[..n], t, e);
      assert log[e + 1..][..n - e - 1] == log[..n][e + 1..] && log[e + 1..][n - e - 1] == log[n];
    }
  }

  /** In every run: emptied when it was never fired, disabled or not, a list is a new list.  What comes
      after stands for the queue, and has the fates, that the same history has on a new list. */
  lemma EmptyRevives(options: seq<Options>, program: seq<Op>, steps: nat, t: nat, e: nat)
    requires t < |options| && OnceMemory(options[t])
    requires var log := Run(Start(options, program), steps).log;
      e < |log| && log[e] == Did(Empty(t)) && FirstFire(log[..e], t).None?
    ensures var m := Run(Start(options, program), steps); var since := m.log[e + 1..];
      t < |m.lists| && Follows(m.(log := since), t) && Balanced(since, t)
  {
    var m := Run(Start(options, program), steps);
    RunFollows(options, program, steps, t);
    ReplayPrefix(m.log, t, e);
    DataIsFirstFire(m.log[..e], t);
    RevivesIn(m.log, t, e);
    BookBalances(m.log[e + 1..], t);
  }

  /** A program in which a disabled list calls a callback. */
  lemma RevivedCalls() returns (steps: nat)
    ensures var log := Run(Start([ONCE_MEMORY], [Disable(0), Empty(0), Add(0, [Lost()]), Fire(0, 5)]), steps).log;
      |log| > 0 && log[0] == Did(Disable(0)) && Called(0, Lost(), 5) in log
  {
    var cbs := [Lost()];
    var start := Start([ONCE_MEMORY], [Disable(0), Empty(0), Add(0, cbs), Fire(0, 5)]);
    var l := NewList(ONCE_MEMORY);
    var gone := DisableIt(l);
    var back := gone.(list := Some([]));
    var full := gone.(list := Some(cbs));
    PushedAll([], cbs);
    assert [] + cbs == cbs;
    var none: seq<Frame> := [];
    assert start.lists == [l];
    var ops := [Disable(0)] + ([Empty(0)] + ([Add(0, cbs)] + ([Fire(0, 5)] + [])));
    assert ops == [Disable(0), Empty(0), Add(0, cbs), Fire(0, 5)];
    assert start.control == none + [Body(ops)];
    var log: seq<Event> := [];
    OpStep(l, none, Disable(0), [Empty(0)] + ([Add(0, cbs)] + ([Fire(0, 5)] + [])), log, gone);
    log := log + [Did(Disable(0))];
    OpStep(gone, none, Empty(0), [Add(0, cbs)] + ([Fire(0, 5)] + []), log, back);
    log := log + [Did(Empty(0))];
    OpStep(back, none, Add(0, cbs), [Fire(0, 5)] + [], log, full);
    log := log + [Did(Add(0, cbs))];
    FireStep(full, none, Fire(0, 5), [], log, 5);
    log := log + [Did(Fire(0, 5))];
    CallsNext(StartFire(full, 5), none + [Body([])], 5, log);
    FiveSteps(start);
    steps := 5;
    assert Run(start, 5).log == log + [Called(0, Lost(), 5)];
  }

  /** Disables and empties its list while it runs, and adds two callbacks. */
  function Reopener(): Callback {
    Callback(1, [Disable(0), Empty(0), Add(0, [Lost(), Late()])], false)
  }

  function Late(): Callback {
    Callback(3, [], false)
  }

  /** What it does, from the call to its return. */
  lemma ReopenerSteps(lower: seq<Frame>, log: seq<Event>) returns (m: Machine)
    ensures m == Run(Machine([Firing([Reopener()], 0)], lower + [Test(0, 5)], map[], log), 4)
    ensures m == Machine([Firing([Lost(), Late()], 0).(memory := None)], lower + [Returned(0, 5, false)] + [Body([])],
                         map[], log + [Called(0, Reopener(), 5)] + [Did(Disable(0))] + [Did(Empty(0))]
                                + [Did(Add(0, [Lost(), Late()]))])
  {
    var l, two := Firing([Reopener()], 0), [Lost(), Late()];
    var gone := DisableIt(l);
    var back := gone.(list := Some([]), firingLength := 0);
    var full := back.(list := Some(two), firingLength := 2);
    var f := Returned(0, 5, false);
    CallsNext(l, lower, 5, log);
    var start, more := Machine([l], lower + [Test(0, 5)], map[], log), log + [Called(0, Reopener(), 5)];
    assert Reopener().body == [Disable(0)] + ([Empty(0)] + ([Add(0, two)] + []));
    OpStep(l, lower + [f], Disable(0), [Empty(0)] + ([Add(0, two)] + []), more, gone);
    OpStep(gone, lower + [f], Empty(0), [Add(0, two)] + [], more + [Did(Disable(0))], back);
    PushedAll([], two);
    assert [] + two == two;
    OpStep(back, lower + [f], Add(0, two), [], more + [Did(Disable(0))] + [Did(Empty(0))], full);
    FourSteps(start);
    m := Step(Step(Step(Step(start))));
  }

  /** A program in which a list calls a callback that was added after it was disabled, and emptied, by a
      callback of its own: the first one added is passed by, the second called. */
  lemma RevivedWhileFiring() returns (end: Machine)
    ensures Reaches(Start([ONCE_MEMORY], FireOne(Reopener())), end)
    ensures var log := end.log;
      |log| == 7 && log[1] == Did(Fire(0, 5)) && log[3] == Did(Disable(0)) && log[6] == Called(0, Late(), 5)
  {
    var m := FirstSteps(Reopener());
    end := ReopenerRuns(Start([ONCE_MEMORY], FireOne(Reopener())), m);
  }

  lemma ReopenerRuns(start: Machine, m: Machine) returns (end: Machine)
    requires m == Run(start, 2) && m == Machine([Firing([Reopener()], 0)], [Body([])] + [Test(0, 5)], map[], m.log)
    ensures Reaches(start, end)
    ensures end.log == m.log + [Called(0, Reopener(), 5)] + [Did(Disable(0))] + [Did(Empty(0))]
                       + [Did(Add(0, [Lost(), Late()]))] + [Called(0, Late(), 5)]
  {
    var r := ReopenerSteps([Body([])], m.log);
    end := CallsLate(r.log);
    ReachesFurther(start, m, r);
    ReachesFurther(start, r, end);
  }

  /** The callback returns, and the loop goes on to the second place. */
  lemma CallsLate(log: seq<Event>) returns (end: Machine)
    ensures var l := Firing([Lost(), Late()], 0).(memory := None);
      end == Run(Machine([l], [Body([])] + [Returned(0, 5, false)] + [Body([])], map[], log), 3)
    ensures end.log == log + [Called(0, Late(), 5)]
  {
    var l := Firing([Lost(), Late()], 0).(memory := None);
    var m := Machine([l], [Body([])] + [Returned(0, 5, false)] + [Body([])], map[], log);
    BodyEnds(l, [Body([])] + [Returned(0, 5, false)], log);
    LoopGoesOn(l, [Body([])], 5, log);
    CallsNext(l.(firingIndex := 1), [Body([])], 5, log);
    end := Step(Step(Step(m)));
    assert Run(m, 0) == m && Run(m, 1) == Step(m) && Run(m, 2) == Step(Step(m));
  }

  /** A list that was fired once, and is no longer fired, without remembering the data. */
  ghost predicate Mute(l: CallbackList) {
    l.stack.None? && l.memory.None? && l.fired && !l.firing
  }

  /** At most one event is added, and no call of list t. */
  ghost predicate CallsNothing(log: seq<Event>, more: seq<Event>, t: nat) {
    && |log| <= |more| && more[..|log|] == log
    && forall i :: |log| <= i < |more| && more[i].Called? ==> more[i].target != t
  }

  lemma {:induction false} MuteRemove(l: CallbackList, id: nat, i: nat)
    requires l.list.Some? && i <= |l.list.value| && Mute(l)
    ensures Mute(RemoveFrom(l, id, i))
    decreases |l.list.value| - i
  {
    var k := IndexFrom(l.list.value, id, i);
    if k < |l.list.value| {
      MuteRemove(RemoveAt(l, k), id, k);
    }
  }

  lemma MuteResult(l: CallbackList, op: Op)
    requires Mute(l) && !op.Settle?
    ensures Mute(Result(l, op).0) && Stored(Result(l, op)) == Result(l, op).0
  {
    if op.Remove? && l.list.Some? {
      MuteRemove(l, op.id, 0);
    }
  }

  lemma MuteStep(m: Machine, t: nat)
    requires Inv(m) && t < |m.lists| && Mute(m.lists[t])
    ensures Mute(Step(m).lists[t]) && CallsNothing(m.log, Step(m).log, t)
  {
    if |m.control| > 0 {
      var top := m.control[|m.control| - 1];
      assert ListOk(m.lists[t], Frames(m.control, t));
      if top.Body? {
        if |top.ops| > 0 && !top.ops[0].Settle? && top.ops[0].target == t {
          MuteResult(m.lists[t], top.ops[0]);
        }
      } else {
        assert top.target != t;
      }
    }
  }

  lemma {:induction false} MuteRun(m: Machine, t: nat, steps: nat)
    requires Inv(m) && t < |m.lists| && Mute(m.lists[t])
    ensures Inv(Run(m, steps)) && Mute(Run(m, steps).lists[t]) && CallsNothing(m.log, Run(m, steps).log, t)
  {
    if steps > 0 {
      var before := Run(m, steps - 1);
      MuteRun(m, t, steps - 1);
      StepKeeps(before);
      MuteStep(before, t);
      NothingMore(m.log, before.log, Step(before).log, t);
    }
  }

  lemma NothingMore(log: seq<Event>, more: seq<Event>, most: seq<Event>, t: nat)
    requires CallsNothing(log, more, t) && CallsNothing(more, most, t)
    ensures CallsNothing(log, most, t)
  {
    assert most[..|log|] == most[..|more|][..|log|];
    forall i | |log| <= i < |more| ensures most[i] == more[i] {
      assert most[..|more|][i] == more[i];
    }
  }

  /** In every run: a list that has been fired, and has forgotten the data after the firing, never
      calls anything again, even if it is emptied, added to and fired. */
  lemma RevivedStaysMute(options: seq<Options>, program: seq<Op>, steps: nat, more: nat, t: nat)
    requires t < |options| && Mute(Run(Start(options, program), steps).lists[t])
    ensures CallsNothing(Run(Start(options, program), steps).log, Run(Start(options, program), steps + more).log, t)
  {
    RunKeeps(options, program, steps);
    MuteRun(Run(Start(options, program), steps), t, more);
    var _ := RunAdds(Start(options, program), steps, more);
  }
}
