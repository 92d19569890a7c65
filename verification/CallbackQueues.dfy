/** A "once memory" callback list is a queue: whatever the callbacks do while it is fired, each call
    is of the callback that has been due the longest, with the data of the one firing. */
module CallbackQueues {
  import opened CallbackLists

  /** What the history of a list makes of it.  passed are the callbacks in the list that its loop has
      passed, and skip is how many places beyond the end of the list it has passed too, which happens
      when the list is emptied during a firing; due are the callbacks still to be called; data is that
      of the firing, and remembers tells whether callbacks added later will be called with it; live
      tells whether the list is there, and firing whether it is being fired. */
  datatype Queue = Queue(passed: seq<Callback>, skip: nat, due: seq<Callback>,
                         data: Option<Data>, remembers: bool, live: bool, firing: bool)

  function NewQueue(): Queue {
    Queue([], 0, [], None, false, true, false)
  }

  predicate OnceMemory(o: Options) {
    o.once && o.memory && !o.unique && !o.stopOnFalse
  }

  function Without(cbs: seq<Callback>, id: nat): seq<Callback> {
    if |cbs| == 0 then []
    else (if cbs[0].id == id then [] else [cbs[0]]) + Without(cbs[1..], id)
  }

  /** How many of n callbacks are added at places the loop has passed. */
  function Skipped(q: Queue, n: nat): (k: nat)
    ensures k <= n && k <= q.skip
  {
    if n < q.skip then n else q.skip
  }

  /** Callbacks are added; a list that remembers its firing is fired again at once. */
  function Extended(q: Queue, cbs: seq<Callback>): Queue {
    var k := Skipped(q, |cbs|);
    q.(passed := q.passed + cbs[..k], skip := q.skip - k, due := q.due + cbs[k..], firing := q.firing || q.remembers)
  }

  /** The loop stays where it is. */
  function Cleared(q: Queue): Queue {
    q.(passed := [], skip := |q.passed| + q.skip, due := [])
  }

  function Disabled(q: Queue): Queue {
    Cleared(q).(remembers := false, live := false)
  }

  function Fired(q: Queue, data: Data): Queue {
    q.(data := Some(data), remembers := true, firing := true)
  }

  function AfterOp(q: Queue, op: Op, t: nat): Queue {
    if op.Settle? || op.target != t then q
    else
      match op
      case Add(_, cbs) => if q.live then Extended(q, cbs) else q
      case Remove(_, id) => q.(passed := Without(q.passed, id), due := Without(q.due, id))
      case Empty(_) => Cleared(q).(live := true)
      case Disable(_) => Disabled(q)
      case Lock(_) => if q.remembers then q else Disabled(q)
      case Fire(_, data) => if q.live && q.data.None? then Fired(q, data) else q
  }

  /** The queue after one event on list t; None where a callback is called outside a firing, or that is
      not next, or with other data than the firing's, or where a firing ends that has not begun or while
      a callback is due. */
  function After(q: Queue, e: Event, t: nat): Option<Queue> {
    match e
    case Did(op) => Some(AfterOp(q, op, t))
    case Called(u, cb, data) =>
      if u != t then Some(q)
      else if q.firing && |q.due| > 0 && cb == q.due[0] && q.data == Some(data) then
        Some(q.(passed := q.passed + [cb], due := q.due[1..]))
      else None
    case Ended(u) =>
      if u != t then Some(q)
      else if !q.firing || |q.due| > 0 || q.data.None? then None
      else Some(q.(passed := [], skip := 0, live := q.live && q.remembers, firing := false))
  }

  function Replay(log: seq<Event>, t: nat): Option<Queue> {
    if |log| == 0 then Some(NewQueue())
    else
      var before := Replay(log[..|log| - 1], t);
      if before.None? then None else After(before.value, log[|log| - 1], t)
  }

  // ---------------------------------------------------------------------------
  // Which queue a list stands for

  /** Places a firing list's loop has passed. */
  function Places(l: CallbackList, f: Frame): int {
    l.firingIndex + if f.Test? then 0 else 1
  }

  ghost predicate FiringStands(l: CallbackList, q: Queue, f: Frame)
    requires f.Test? || f.Returned?
  {
    q.data == Some(f.data) && Places(l, f) == |q.passed| + q.skip
  }

  ghost predicate Stands(l: CallbackList, q: Queue, frames: seq<Frame>)
    requires forall i :: 0 <= i < |frames| ==> frames[i].Test? || frames[i].Returned?
  {
    && OnceMemory(l.options) && l.stack.None? && ListOk(l, frames) && l.firing == q.firing
    && (l.fired <==> q.data.Some?) && (q.remembers ==> q.data.Some?)
    && l.memory == (if q.remembers then q.data else None)
    && (if q.live then l.list == Some(q.passed + q.due) else l.list.None? && q.passed == q.due == [])
    && (q.skip > 0 ==> q.due == [])
    && if l.firing then FiringStands(l, q, frames[0])
       else q.passed == [] && q.skip == 0 && (q.remembers ==> q.due == [])
  }

  // ---------------------------------------------------------------------------
  // The methods on the queue

  lemma {:induction false} WithoutConcat(a: seq<Callback>, b: seq<Callback>, id: nat)
    ensures Without(a + b, id) == Without(a, id) + Without(b, id)
  {
    if |a| == 0 {
      assert a + b == b;
    } else {
      WithoutConcat(a[1..], b, id);
      assert (a + b)[1..] == a[1..] + b;
      var h := if a[0].id == id then [] else [a[0]];
      assert h + (Without(a[1..], id) + Without(b, id)) == (h + Without(a[1..], id)) + Without(b, id);
    }
  }

  lemma {:induction false} WithoutNone(a: seq<Callback>, id: nat)
    requires forall j :: 0 <= j < |a| ==> a[j].id != id
    ensures Without(a, id) == a
  {
    if |a| > 0 {
      WithoutNone(a[1..], id);
    }
  }

  /** Taking out one occurrence. */
  lemma WithoutOne(a: seq<Callback>, id: nat, k: nat)
    requires k < |a| && a[k].id == id
    ensures Without(a[..k] + a[k + 1..], id) == Without(a, id)
  {
    assert a == a[..k] + a[k..];
    WithoutConcat(a[..k], a[k..], id);
    WithoutConcat(a[..k], a[k + 1..], id);
    assert a[k..][1..] == a[k + 1..];
  }

  /** Entries of a list at and below its firing index; those of a list emptied meanwhile are few. */
  function Passed(l: CallbackList): seq<Callback>
    requires l.list.Some? && l.firingIndex >= -1
  {
    if l.firingIndex + 1 <= |l.list.value| then l.list.value[..l.firingIndex + 1] else l.list.value
  }

  lemma RemoveAtKeeps(l: CallbackList, id: nat, k: nat)
    requires l.list.Some? && k < |l.list.value| && l.list.value[k].id == id
    requires l.firing ==> -1 <= l.firingIndex
    ensures var r := RemoveAt(l, k);
      && Without(r.list.value, id) == Without(l.list.value, id)
      && (l.firing ==> -1 <= r.firingIndex && Without(Passed(r), id) == Without(Passed(l), id)
                       && r.firingIndex - |Passed(r)| == l.firingIndex - |Passed(l)|)
  {
    var cbs := l.list.value;
    WithoutOne(cbs, id, k);
    if l.firing {
      var r, head := RemoveAt(l, k), Passed(l);
      if k <= l.firingIndex {
        WithoutOne(head, id, k);
        assert Passed(r) == head[..k] + head[k + 1..];
      } else {
        assert Passed(r) == head;
      }
    }
  }

  /** remove takes out every occurrence, before and behind the callback that runs, and leaves the
      index at it: as many callbacks are passed as are left of those that were. */
  lemma {:induction false} RemoveIsWithout(l: CallbackList, id: nat, i: nat)
    requires l.list.Some? && i <= |l.list.value| && (l.firing ==> -1 <= l.firingIndex)
    requires forall j :: 0 <= j < i ==> l.list.value[j].id != id
    ensures var r := RemoveFrom(l, id, i);
      && r.list == Some(Without(l.list.value, id))
      && r == l.(list := r.list, firingLength := r.firingLength, firingIndex := r.firingIndex)
      && (l.firing ==>
           r.firingIndex - |Without(Passed(l), id)| == l.firingIndex - |Passed(l)|)
    decreases |l.list.value| - i
  {
    var cbs := l.list.value;
    var k := IndexFrom(cbs, id, i);
    if k == |cbs| {
      WithoutNone(cbs, id);
      if l.firing {
        WithoutNone(Passed(l), id);
      }
    } else {
      RemoveAtKeeps(l, id, k);
      RemoveIsWithout(RemoveAt(l, k), id, k);
    }
  }

  lemma RemoveStands(l: CallbackList, q: Queue, id: nat, frames: seq<Frame>)
    requires Waiting(frames) && Stands(l, q, frames) && l.list.Some?
    ensures Stands(RemoveFrom(l, id, 0), q.(passed := Without(q.passed, id), due := Without(q.due, id)), frames)
  {
    var r := RemoveFrom(l, id, 0);
    RemoveIsWithout(l, id, 0);
    RemoveKeeps(l, id, 0, frames);
    assert ListOk(r, frames);
    WithoutConcat(q.passed, q.due, id);
    if l.firing {
      assert Passed(l) == q.passed;
    }
  }

  /** The frames once a result is stored. */
  function FramesStored(result: (CallbackList, Option<Data>), frames: seq<Frame>, t: nat): seq<Frame> {
    if result.1.Some? && result.0.list.Some? then frames + [Test(t, result.1.value)] else frames
  }

  /** Callbacks added go behind the list, the first of them to places the loop has passed. */
  lemma ExtendedList(q: Queue, cbs: seq<Callback>)
    requires q.skip > 0 ==> q.due == []
    ensures var r := Extended(q, cbs);
      && r.passed + r.due == q.passed + q.due + cbs && |r.passed| + r.skip == |q.passed| + q.skip
      && (r.skip > 0 ==> r.due == [])
  {
    var k := Skipped(q, |cbs|);
    assert cbs == cbs[..k] + cbs[k..];
    if q.skip == 0 {
      assert (q.passed + cbs[..0]) + (q.due + cbs[0..]) == (q.passed + q.due) + cbs;
    } else {
      assert (q.passed + cbs[..k]) + (q.due + cbs[k..]) == (q.passed + q.due) + cbs;
    }
  }

  lemma AddStands(l: CallbackList, q: Queue, cbs: seq<Callback>, t: nat, frames: seq<Frame>)
    requires Waiting(frames) && Stands(l, q, frames)
    ensures var r := AddTo(l, cbs);
      Stands(Stored(r), if q.live then Extended(q, cbs) else q, FramesStored(r, frames, t))
  {
    if q.live {
      var more := Extended(q, cbs);
      PushedAll(l.list.value, cbs);
      ExtendedList(q, cbs);
      assert AddTo(l, cbs).0.list == Some(more.passed + more.due);
      if !l.firing {
        assert more.passed == [];
        if l.memory.Some? {
          assert frames + [Test(t, l.memory.value)] == [Test(t, l.memory.value)];
        }
      }
    }
  }

  lemma FireStands(l: CallbackList, q: Queue, data: Data, t: nat, frames: seq<Frame>)
    requires Waiting(frames) && Stands(l, q, frames)
    ensures var r := FireWith(l, data);
      Stands(Stored(r), if q.live && q.data.None? then Fired(q, data) else q,
             FramesStored(r, frames, t))
  {
    if q.live && q.data.None? {
      assert frames + [Test(t, data)] == [Test(t, data)];
    }
  }

  lemma ClearStands(l: CallbackList, q: Queue, op: Op, t: nat, frames: seq<Frame>)
    requires Waiting(frames) && Stands(l, q, frames) && (op.Empty? || op.Disable? || op.Lock?) && op.target == t
    ensures Stands(Stored(Result(l, op)), AfterOp(q, op, t), FramesStored(Result(l, op), frames, t))
  {
    var none: seq<Callback> := [];
    assert none + none == none;
  }

  /** Every operation acts on the queue as AfterOp says. */
  lemma OpStands(l: CallbackList, q: Queue, op: Op, t: nat, frames: seq<Frame>)
    requires Waiting(frames) && Stands(l, q, frames) && !op.Settle? && op.target == t
    ensures Stands(Stored(Result(l, op)), AfterOp(q, op, t), FramesStored(Result(l, op), frames, t))
  {
    match op
    case Add(_, cbs) => AddStands(l, q, cbs, t, frames);
    case Fire(_, data) => FireStands(l, q, data, t, frames);
    case Remove(_, id) =>
      if l.list.Some? {
        RemoveStands(l, q, id, frames);
      }
    case _ => ClearStands(l, q, op, t, frames);
  }

  /** The callback that is called is the one that is due next. */
  lemma CallStands(l: CallbackList, q: Queue, t: nat, data: Data, returnsFalse: bool)
    requires Stands(l, q, [Test(t, data)])
    requires l.list.Some? && 0 <= l.firingIndex < l.firingLength && l.firingIndex < |l.list.value|
    ensures var cb := l.list.value[l.firingIndex];
      && q.firing && |q.due| > 0 && cb == q.due[0] && q.data == Some(data)
      && Stands(l, q.(passed := q.passed + [cb], due := q.due[1..]), [Returned(t, data, returnsFalse)])
  {
    var cb := l.list.value[l.firingIndex];
    assert |q.passed| + q.skip < |q.passed + q.due|;
    assert q.passed + q.due == (q.passed + [cb]) + q.due[1..];
  }

  /** A firing ends when nothing is due any more. */
  lemma EndStands(l: CallbackList, q: Queue, t: nat, data: Data)
    requires Stands(l, q, [Test(t, data)]) && !(l.list.Some? && l.firingIndex < l.firingLength)
    ensures q.firing && |q.due| == 0 && q.data.Some? && EndFire(l).1.None?
    ensures Stands(EndFire(l).0, q.(passed := [], skip := 0, live := q.live && q.remembers, firing := false), [])
  {
    var none: seq<Callback> := [];
    assert none + none == none;
    if q.live {
      assert |q.passed + q.due| <= |q.passed| + q.skip;
    }
  }

  // ---------------------------------------------------------------------------
  // The machine on the queue

  /** List t of the machine stands for the queue its history describes. */
  ghost predicate Follows(m: Machine, t: nat)
    requires t < |m.lists|
  {
    FramesAreFirings(m.control, t);
    var q := Replay(m.log, t);
    q.Some? && Stands(m.lists[t], q.value, Frames(m.control, t))
  }

  lemma {:induction false} FramesAreFirings(control: seq<Frame>, t: nat)
    ensures forall i :: 0 <= i < |Frames(control, t)| ==> Frames(control, t)[i].Test? || Frames(control, t)[i].Returned?
  {
    if |control| > 0 {
      FramesAreFirings(control[..|control| - 1], t);
    }
  }

  lemma ReplayOne(log: seq<Event>, e: Event, t: nat)
    requires Replay(log, t).Some?
    ensures Replay(log + [e], t) == After(Replay(log, t).value, e, t)
  {
    assert (log + [e])[..|log|] == log;
  }

  /** What an operation does to list t, the firings of it on the stack of calls, and the history. */
  lemma BodyStep(m: Machine, op: Op, rest: seq<Op>, t: nat)
    requires Inv(m) && t < |m.lists| && |m.control| > 0 && m.control[|m.control| - 1] == Body([op] + rest)
    ensures Waiting(Frames(m.control, t)) && Step(m).log == m.log + [Did(op)]
    ensures if !op.Settle? && op.target == t
            then Step(m).lists[t] == Stored(Result(m.lists[t], op))
                 && Frames(Step(m).control, t) == FramesStored(Result(m.lists[t], op), Frames(m.control, t), t)
            else Step(m).lists[t] == m.lists[t] && Frames(Step(m).control, t) == Frames(m.control, t)
  {
    var n := |m.control| - 1;
    var control := m.control[..n] + [Body(rest)];
    assert ([op] + rest)[1..] == rest;
    assert m.control == m.control[..n] + [Body([op] + rest)];
    FramesPush(m.control[..n], Body([op] + rest), t);
    FramesPush(m.control[..n], Body(rest), t);
    NoTestsWaiting(control, t);
    if !op.Settle? && op.target < |m.lists| {
      var result := Result(m.lists[op.target], op);
      if result.1.Some? && result.0.list.Some? {
        FramesPush(control, Test(op.target, result.1.value), t);
      }
    }
  }

  /** A body performs an operation. */
  lemma BodyFollows(m: Machine, t: nat)
    requires Inv(m) && t < |m.lists| && Follows(m, t) && |m.control| > 0 && m.control[|m.control| - 1].Body?
    ensures Follows(Step(m), t)
  {
    var ops := m.control[|m.control| - 1].ops;
    if |ops| > 0 {
      var op := ops[0];
      assert ops == [op] + ops[1..];
      BodyStep(m, op, ops[1..], t);
      ReplayOne(m.log, Did(op), t);
      if !op.Settle? && op.target == t {
        OpStands(m.lists[t], Replay(m.log, t).value, op, t, Frames(m.control, t));
      }
    }
  }

  /** The loop calls a callback. */
  lemma CallFollows(m: Machine, t: nat, u: nat, data: Data)
    requires Inv(m) && t < |m.lists| && Follows(m, t)
    requires |m.control| > 0 && m.control[|m.control| - 1] == Test(u, data) && u < |m.lists|
    requires m.lists[u].list.Some? && m.lists[u].firingIndex < m.lists[u].firingLength
    ensures Follows(Step(m), t)
  {
    var l, r, n := m.lists[u], Step(m), |m.control| - 1;
    CallStep(m, u, data);
    var cb := l.list.value[l.firingIndex];
    ReplayOne(m.log, Called(u, cb, data), t);
    if u == t {
      assert ListOk(l, Frames(m.control, t));
      assert Frames(m.control, t) == [Test(t, data)] && Frames(m.control[..n], t) == [];
      assert Frames(r.control, t) == [Returned(u, data, cb.returnsFalse)];
      CallStands(l, Replay(m.log, t).value, t, data, cb.returnsFalse);
    } else {
      assert Frames(r.control, t) == Frames(m.control, t);
    }
  }

  /** What leaving the loop does to the stack of calls and the history. */
  lemma LeaveStep(m: Machine, u: nat, l: CallbackList, t: nat)
    requires |m.control| > 0 && u < |m.lists| && t < |m.lists|
    ensures var n, end := |m.control| - 1, EndFire(l);
      var r := Leave(m.(control := m.control[..n]), u, l);
      && r.log == m.log + [Ended(u)] && r.lists[t] == (if u == t then Stored(end) else m.lists[t])
      && (u != t || end.1.None? ==> Frames(r.control, t) == Frames(m.control[..n], t))
  {
    var n, end := |m.control| - 1, EndFire(l);
    if end.1.Some? && end.0.list.Some? {
      FramesPush(m.control[..n], Test(u, end.1.value), t);
    }
  }

  /** The loop of another list ends. */
  lemma OtherLeaves(m: Machine, t: nat, u: nat, l: CallbackList)
    requires t < |m.lists| && Follows(m, t) && u < |m.lists| && u != t
    requires |m.control| > 0 && IsFor(m.control[|m.control| - 1], u)
    ensures Follows(Leave(m.(control := m.control[..|m.control| - 1]), u, l), t)
  {
    LeaveStep(m, u, l, t);
    ReplayOne(m.log, Ended(u), t);
    assert Frames(m.control, t) == Frames(m.control[..|m.control| - 1], t);
  }

  /** The loop ends when nothing is due any more. */
  lemma LeaveFollows(m: Machine, t: nat, u: nat, data: Data)
    requires Inv(m) && t < |m.lists| && Follows(m, t)
    requires |m.control| > 0 && m.control[|m.control| - 1] == Test(u, data) && u < |m.lists|
    requires !(m.lists[u].list.Some? && m.lists[u].firingIndex < m.lists[u].firingLength)
    ensures Follows(Step(m), t)
  {
    var l := m.lists[u];
    if u == t {
      LeaveStep(m, u, l, t);
      ReplayOne(m.log, Ended(u), t);
      assert ListOk(l, Frames(m.control, t));
      assert Frames(m.control, t) == [Test(t, data)] && Frames(m.control[..|m.control| - 1], t) == [];
      EndStands(l, Replay(m.log, t).value, t, data);
    } else {
      OtherLeaves(m, t, u, l);
    }
  }

  /** The loop goes on after a callback has returned. */
  lemma ReturnFollows(m: Machine, t: nat, u: nat, data: Data, returnsFalse: bool)
    requires Inv(m) && t < |m.lists| && Follows(m, t)
    requires |m.control| > 0 && m.control[|m.control| - 1] == Returned(u, data, returnsFalse) && u < |m.lists|
    ensures Follows(Step(m), t)
  {
    var n, l := |m.control| - 1, m.lists[u];
    if u == t {
      assert ListOk(l, Frames(m.control, t));
      assert Frames(m.control[..n], t) == [];
      FramesPush(m.control[..n], Test(u, data), t);
    } else if returnsFalse && l.options.stopOnFalse {
      OtherLeaves(m, t, u, l.(memory := None));
    } else {
      FramesPush(m.control[..n], Test(u, data), t);
    }
  }

  lemma TestFollows(m: Machine, t: nat, u: nat, data: Data)
    requires Inv(m) && t < |m.lists| && Follows(m, t)
    requires |m.control| > 0 && m.control[|m.control| - 1] == Test(u, data) && u < |m.lists|
    ensures Follows(Step(m), t)
  {
    if m.lists[u].list.Some? && m.lists[u].firingIndex < m.lists[u].firingLength {
      CallFollows(m, t, u, data);
    } else {
      LeaveFollows(m, t, u, data);
    }
  }

  lemma StepFollows(m: Machine, t: nat)
    requires Inv(m) && t < |m.lists| && Follows(m, t)
    ensures Follows(Step(m), t)
  {
    if |m.control| > 0 {
      match m.control[|m.control| - 1]
      case Body(_) => BodyFollows(m, t);
      case Test(u, data) =>
        if u < |m.lists| {
          TestFollows(m, t, u, data);
        }
      case Returned(u, data, returnsFalse) =>
        if u < |m.lists| {
          ReturnFollows(m, t, u, data, returnsFalse);
        }
    }
  }

  lemma StartFollows(options: seq<Options>, program: seq<Op>, t: nat)
    requires t < |options| && OnceMemory(options[t])
    ensures Follows(Start(options, program), t)
  {
    StartHolds(options, program);
    FramesPush([], Body(program), t);
    assert [] + [Body(program)] == [Body(program)];
  }

  lemma {:induction false} StepsFollow(m: Machine, steps: nat, t: nat)
    requires Inv(m) && t < |m.lists| && Follows(m, t)
    ensures var r := Run(m, steps); Inv(r) && t < |r.lists| && Follows(r, t)
  {
    if steps > 0 {
      var before := Run(m, steps - 1);
      StepsFollow(m, steps - 1, t);
      StepKeeps(before);
      StepFollows(before, t);
    }
  }

  /** In every run of every program, a "once memory" list stands for its queue: in particular every
      callback it has called was due next, and was given the data of the firing. */
  lemma RunFollows(options: seq<Options>, program: seq<Op>, steps: nat, t: nat)
    requires t < |options| && OnceMemory(options[t])
    ensures var m := Run(Start(options, program), steps); t < |m.lists| && Follows(m, t)
  {
    StartHolds(options, program);
    StartFollows(options, program, t);
    StepsFollow(Start(options, program), steps, t);
  }
}
