/** Programs on lists that are fired once come to an end, however their callbacks add and fire: so the
    callbacks that are to run exactly once do run. */
module CallbackEnding {
  import opened CallbackLists
  import opened CallbackQueues
  import opened CallbackFates
  import opened CallbackPrograms
  import opened CallbackEmptying

  // ---------------------------------------------------------------------------
  // What is left to be done

  function OpsWeight(ops: seq<Op>): nat {
    if |ops| == 0 then 0 else OpWeight(ops[0]) + OpsWeight(ops[1..])
  }

  /** An operation takes a step and may start a firing, which takes another to end. */
  function OpWeight(op: Op): nat {
    2 + if op.Add? then CallbacksWeight(op.cbs) else 0
  }

  function CallbacksWeight(cbs: seq<Callback>): nat {
    if |cbs| == 0 then 0 else CallbackWeight(cbs[0]) + CallbacksWeight(cbs[1..])
  }

  function CallbackWeight(cb: Callback): nat {
    3 + OpsWeight(cb.body)
  }

  function FrameWeight(f: Frame): nat {
    match f
    case Body(ops) => 1 + OpsWeight(ops)
    case Test(_, _) => 1
    case Returned(_, _, _) => 2
  }

  function ControlWeight(control: seq<Frame>): nat {
    if |control| == 0 then 0
    else ControlWeight(control[..|control| - 1]) + FrameWeight(control[|control| - 1])
  }

  function RestFrom(l: CallbackList, from: int): seq<Callback> {
    if l.list.Some? && 0 <= from <= |l.list.value| then l.list.value[from..] else []
  }

  /** The callbacks a firing of the list has still to call. */
  function Rest(l: CallbackList, frames: seq<Frame>): seq<Callback> {
    RestFrom(l, if |frames| == 0 then 0 else if frames[0].Test? then l.firingIndex else l.firingIndex + 1)
  }

  function ListWeight(l: CallbackList, frames: seq<Frame>): nat {
    CallbacksWeight(Rest(l, frames))
  }

  /** All of the first k lists. */
  function ListsWeight(m: Machine, k: nat): nat
    requires k <= |m.lists|
  {
    if k == 0 then 0 else ListsWeight(m, k - 1) + ListWeight(m.lists[k - 1], Frames(m.control, k - 1))
  }

  function Weight(m: Machine): nat {
    ControlWeight(m.control) + ListsWeight(m, |m.lists|)
  }

  lemma ControlPush(control: seq<Frame>, f: Frame)
    ensures ControlWeight(control + [f]) == ControlWeight(control) + FrameWeight(f)
  {
    assert (control + [f])[..|control|] == control;
  }

  lemma {:induction false} WeightConcat(a: seq<Callback>, b: seq<Callback>)
    ensures CallbacksWeight(a + b) == CallbacksWeight(a) + CallbacksWeight(b)
  {
    if |a| == 0 {
      assert a + b == b;
    } else {
      WeightConcat(a[1..], b);
      assert (a + b)[1..] == a[1..] + b && (a + b)[0] == a[0];
    }
  }

  lemma SuffixWeight(cbs: seq<Callback>, k: nat)
    requires k <= |cbs|
    ensures CallbacksWeight(cbs[k..]) <= CallbacksWeight(cbs)
  {
    WeightConcat(cbs[..k], cbs[k..]);
    assert cbs == cbs[..k] + cbs[k..];
  }

  lemma WithoutWeight(cbs: seq<Callback>, k: nat)
    requires k < |cbs|
    ensures CallbacksWeight(cbs[..k] + cbs[k + 1..]) <= CallbacksWeight(cbs)
  {
    WeightConcat(cbs[..k], cbs[k..]);
    WeightConcat(cbs[..k], cbs[k + 1..]);
    assert cbs == cbs[..k] + cbs[k..];
    SuffixWeight(cbs[k..], 1);
    assert cbs[k..][1..] == cbs[k + 1..];
  }

  // ---------------------------------------------------------------------------
  // Operations

  /** What add pushes weighs no more than what it is given. */
  lemma {:induction false} PushedWeight(cbs: seq<Callback>, more: seq<Callback>, unique: bool)
    returns (tail: seq<Callback>)
    ensures Pushed(cbs, more, unique) == cbs + tail && CallbacksWeight(tail) <= CallbacksWeight(more)
    decreases |more|
  {
    if |more| == 0 {
      tail := [];
    } else if unique && Has(cbs, more[0].id) {
      tail := PushedWeight(cbs, more[1..], unique);
    } else {
      var rest := PushedWeight(cbs + [more[0]], more[1..], unique);
      tail := [more[0]] + rest;
      assert tail[1..] == rest && cbs + [more[0]] + rest == cbs + tail;
    }
  }

  /** A list that is fired once at most. */
  ghost predicate FiredOnce(l: CallbackList) {
    l.options.once && l.stack.None?
  }

  lemma AppendWeight(list: seq<Callback>, tail: seq<Callback>, from: nat)
    requires from <= |list + tail|
    ensures CallbacksWeight((list + tail)[from..])
         <= (if from <= |list| then CallbacksWeight(list[from..]) else 0) + CallbacksWeight(tail)
  {
    if from <= |list| {
      assert (list + tail)[from..] == list[from..] + tail;
      WeightConcat(list[from..], tail);
    } else {
      assert (list + tail)[from..] == tail[from - |list|..];
      SuffixWeight(tail, from - |list|);
    }
  }

  lemma AppendRest(l: CallbackList, r: CallbackList, tail: seq<Callback>, from: int)
    requires l.list.Some? && r.list == Some(l.list.value + tail)
    ensures CallbacksWeight(RestFrom(r, from)) <= CallbacksWeight(RestFrom(l, from)) + CallbacksWeight(tail)
  {
    if 0 <= from <= |r.list.value| {
      AppendWeight(l.list.value, tail, from);
    }
  }

  /** Added to a list that is being fired. */
  lemma AddFiringWeighs(l: CallbackList, cbs: seq<Callback>, frames: seq<Frame>)
    requires ListOk(l, frames) && Waiting(frames) && l.list.Some? && l.firing
    ensures AddTo(l, cbs).1.None? && ListWeight(AddTo(l, cbs).0, frames) <= ListWeight(l, frames) + CallbacksWeight(cbs)
  {
    var tail := PushedWeight(l.list.value, cbs, l.options.unique);
    AppendRest(l, AddTo(l, cbs).0, tail, l.firingIndex + 1);
  }

  /** Added to a list that is not, which may be fired with what is new. */
  lemma AddIdleWeighs(l: CallbackList, cbs: seq<Callback>, t: nat)
    requires ListOk(l, []) && l.list.Some? && !l.firing
    ensures var r := AddTo(l, cbs);
      ListWeight(Stored(r), FramesStored(r, [], t)) <= ListWeight(l, []) + CallbacksWeight(cbs)
  {
    var list := l.list.value;
    var tail := PushedWeight(list, cbs, l.options.unique);
    AppendWeight(list, tail, 0);
    AppendWeight(list, tail, |list|);
    assert list[|list|..] == [];
  }

  lemma AddWeighs(l: CallbackList, cbs: seq<Callback>, t: nat, frames: seq<Frame>)
    requires ListOk(l, frames) && Waiting(frames)
    ensures var r := AddTo(l, cbs);
      ListWeight(Stored(r), FramesStored(r, frames, t)) <= ListWeight(l, frames) + CallbacksWeight(cbs)
  {
    if l.list.Some? {
      if l.firing {
        AddFiringWeighs(l, cbs, frames);
      } else {
        AddIdleWeighs(l, cbs, t);
      }
    }
  }

  lemma RemoveAtWeighs(l: CallbackList, k: nat, frames: seq<Frame>)
    requires l.list.Some? && k < |l.list.value| && ListOk(l, frames) && Waiting(frames)
    ensures ListWeight(RemoveAt(l, k), frames) <= ListWeight(l, frames)
  {
    var cbs, r := l.list.value, RemoveAt(l, k);
    var from := if l.firing then l.firingIndex + 1 else 0;
    if from <= k {
      assert r.list.value[from..] == cbs[from..][..k - from] + cbs[from..][k - from + 1..];
      WithoutWeight(cbs[from..], k - from);
    } else if from <= |cbs| {
      assert r.list.value[from - 1..] == cbs[from..];
    }
  }

  lemma {:induction false} RemoveWeighs(l: CallbackList, id: nat, i: nat, frames: seq<Frame>)
    requires l.list.Some? && i <= |l.list.value| && ListOk(l, frames) && Waiting(frames)
    ensures ListWeight(RemoveFrom(l, id, i), frames) <= ListWeight(l, frames)
    decreases |l.list.value| - i
  {
    var k := IndexFrom(l.list.value, id, i);
    if k < |l.list.value| {
      RemoveAtWeighs(l, k, frames);
      RemoveWeighs(RemoveAt(l, k), id, k, frames);
    }
  }

  /** An operation adds no more to its list than its callbacks. */
  lemma OpWeighs(l: CallbackList, op: Op, t: nat, frames: seq<Frame>)
    requires !op.Settle? && ListOk(l, frames) && Waiting(frames) && FiredOnce(l)
    ensures var r := Result(l, op);
      ListWeight(Stored(r), FramesStored(r, frames, t))
      <= ListWeight(l, frames) + if op.Add? then CallbacksWeight(op.cbs) else 0
  {
    match op
    case Add(_, cbs) => AddWeighs(l, cbs, t, frames);
    case Remove(_, id) =>
      if l.list.Some? {
        RemoveWeighs(l, id, 0, frames);
      }
    case _ =>
  }

  lemma {:induction false} RemoveOnce(l: CallbackList, id: nat, i: nat)
    requires l.list.Some? && i <= |l.list.value| && FiredOnce(l)
    ensures FiredOnce(RemoveFrom(l, id, i))
    decreases |l.list.value| - i
  {
    var k := IndexFrom(l.list.value, id, i);
    if k < |l.list.value| {
      RemoveOnce(RemoveAt(l, k), id, k);
    }
  }

  lemma OpOnce(l: CallbackList, op: Op)
    requires !op.Settle? && FiredOnce(l)
    ensures FiredOnce(Stored(Result(l, op)))
  {
    if op.Remove? && l.list.Some? {
      RemoveOnce(l, op.id, 0);
    }
  }

  // ---------------------------------------------------------------------------
  // Steps

  ghost predicate AllOnce(m: Machine) {
    Inv(m) && forall t :: 0 <= t < |m.lists| ==> FiredOnce(m.lists[t])
  }

  /** All but list u weigh what they did. */
  ghost predicate SameBut(m: Machine, r: Machine, u: nat) {
    && |m.lists| == |r.lists|
    && forall t :: 0 <= t < |m.lists| && t != u ==>
         ListWeight(r.lists[t], Frames(r.control, t)) == ListWeight(m.lists[t], Frames(m.control, t))
  }

  /** By how much list u has become heavier. */
  function Change(m: Machine, r: Machine, u: nat): int
    requires u < |m.lists| && |m.lists| == |r.lists|
  {
    ListWeight(r.lists[u], Frames(r.control, u)) - ListWeight(m.lists[u], Frames(m.control, u))
  }

  lemma {:induction false} SumChange(m: Machine, r: Machine, u: nat, k: nat)
    requires SameBut(m, r, u) && k <= |m.lists|
    ensures ListsWeight(r, k) == ListsWeight(m, k) + if u < k then Change(m, r, u) else 0
  {
    if k > 0 {
      SumChange(m, r, u, k - 1);
    }
  }

  lemma BodyWeighs(m: Machine)
    requires AllOnce(m) && |m.control| > 0 && m.control[|m.control| - 1].Body?
    ensures AllOnce(Step(m)) && Weight(Step(m)) < Weight(m)
  {
    var n, r := |m.control| - 1, Step(m);
    var ops := m.control[n].ops;
    StepKeeps(m);
    assert m.control == m.control[..n] + [Body(ops)];
    ControlPush(m.control[..n], Body(ops));
    if |ops| == 0 {
      forall t: nat ensures Frames(r.control, t) == Frames(m.control, t) {
        FramesPush(m.control[..n], Body(ops), t);
      }
      SumChange(m, r, |m.lists|, |m.lists|);
    } else {
      OpStepWeighs(m, ops[0], ops[1..]);
    }
  }

  lemma OpControl(m: Machine, op: Op, rest: seq<Op>)
    requires |m.control| > 0 && m.control[|m.control| - 1] == Body([op] + rest)
    ensures ControlWeight(Step(m).control) + OpWeight(op) <= ControlWeight(m.control) + 1
  {
    var n := |m.control| - 1;
    assert ([op] + rest)[1..] == rest;
    assert m.control == m.control[..n] + [Body([op] + rest)];
    ControlPush(m.control[..n], Body([op] + rest));
    ControlPush(m.control[..n], Body(rest));
    if !op.Settle? && op.target < |m.lists| {
      var result := Result(m.lists[op.target], op);
      if result.1.Some? && result.0.list.Some? {
        ControlPush(m.control[..n] + [Body(rest)], Test(op.target, result.1.value));
      }
    }
  }

  lemma OpStepWeighs(m: Machine, op: Op, rest: seq<Op>)
    requires AllOnce(m) && |m.control| > 0 && m.control[|m.control| - 1] == Body([op] + rest)
    ensures AllOnce(Step(m)) && Weight(Step(m)) < Weight(m)
  {
    var r, u := Step(m), if op.Settle? then |m.lists| else op.target;
    StepKeeps(m);
    OpControl(m, op, rest);
    forall t | 0 <= t < |m.lists|
      ensures FiredOnce(r.lists[t])
      ensures t != u ==> r.lists[t] == m.lists[t] && Frames(r.control, t) == Frames(m.control, t)
    {
      BodyStep(m, op, rest, t);
      if t == u {
        OpOnce(m.lists[t], op);
      }
    }
    if u < |m.lists| {
      BodyStep(m, op, rest, u);
      OpWeighs(m.lists[u], op, u, Frames(m.control, u));
    }
    SumChange(m, r, u, |m.lists|);
  }

  /** A list that is left has nothing left to call. */
  lemma LeftWeighs(l: CallbackList)
    requires FiredOnce(l)
    ensures EndFire(l).1.None? && FiredOnce(EndFire(l).0) && ListWeight(EndFire(l).0, []) == 0
  {}

  lemma LeaveWeighs(m: Machine, u: nat, l: CallbackList)
    requires AllOnce(m) && |m.control| > 0 && u < |m.lists| && IsFor(m.control[|m.control| - 1], u) && FiredOnce(l)
    requires Step(m) == Leave(m.(control := m.control[..|m.control| - 1]), u, l)
    ensures AllOnce(Step(m)) && Weight(Step(m)) < Weight(m)
  {
    var n, r := |m.control| - 1, Step(m);
    StepKeeps(m);
    LeftWeighs(l);
    assert m.control == m.control[..n] + [m.control[n]];
    ControlPush(m.control[..n], m.control[n]);
    assert ListOk(m.lists[u], Frames(m.control, u));
    forall t | 0 <= t < |m.lists|
      ensures Frames(r.control, t) == Frames(m.control[..n], t) && FiredOnce(r.lists[t])
      ensures t != u ==> r.lists[t] == m.lists[t] && Frames(r.control, t) == Frames(m.control, t)
    {
      LeaveStep(m, u, l, t);
    }
    assert Frames(r.control, u) == [];
    SumChange(m, r, u, |m.lists|);
  }

  lemma CallWeighs(m: Machine, u: nat, data: Data)
    requires AllOnce(m) && |m.control| > 0 && m.control[|m.control| - 1] == Test(u, data) && u < |m.lists|
    requires m.lists[u].list.Some? && m.lists[u].firingIndex < m.lists[u].firingLength
    ensures AllOnce(Step(m)) && Weight(Step(m)) < Weight(m)
  {
    var n, l, r := |m.control| - 1, m.lists[u], Step(m);
    StepKeeps(m);
    CallStep(m, u, data);
    var cb := l.list.value[l.firingIndex];
    var f := Returned(u, data, cb.returnsFalse);
    assert m.control == m.control[..n] + [Test(u, data)] && r.control == m.control[..n] + [f] + [Body(cb.body)];
    ControlPush(m.control[..n], Test(u, data));
    ControlPush(m.control[..n], f);
    ControlPush(m.control[..n] + [f], Body(cb.body));
    assert ListOk(l, Frames(m.control, u));
    assert Frames(m.control, u) == [Test(u, data)] && Frames(r.control, u) == [f];
    CalledWeighs(l, data, f);
    SumChange(m, r, u, |m.lists|);
  }

  /** The callback that is called is no longer left. */
  lemma CalledWeighs(l: CallbackList, data: Data, f: Frame)
    requires l.list.Some? && 0 <= l.firingIndex < |l.list.value| && f.Returned?
    ensures ListWeight(l, [Test(f.target, data)]) == CallbackWeight(l.list.value[l.firingIndex]) + ListWeight(l, [f])
  {
    assert l.list.value[l.firingIndex..][1..] == l.list.value[l.firingIndex + 1..];
  }

  lemma ReturnWeighs(m: Machine, u: nat, data: Data, returnsFalse: bool)
    requires AllOnce(m) && |m.control| > 0 && m.control[|m.control| - 1] == Returned(u, data, returnsFalse)
    requires u < |m.lists| && !(returnsFalse && m.lists[u].options.stopOnFalse)
    ensures AllOnce(Step(m)) && Weight(Step(m)) < Weight(m)
  {
    var n, r := |m.control| - 1, Step(m);
    StepKeeps(m);
    assert m.control == m.control[..n] + [Returned(u, data, returnsFalse)];
    ControlPush(m.control[..n], Returned(u, data, returnsFalse));
    ControlPush(m.control[..n], Test(u, data));
    assert ListOk(m.lists[u], Frames(m.control, u));
    forall t: nat ensures Frames(r.control, t) == Frames(m.control[..n], t) + if t == u then [Test(u, data)] else [] {
      FramesPush(m.control[..n], Test(u, data), t);
      FramesPush(m.control[..n], Returned(u, data, returnsFalse), t);
    }
    SumChange(m, r, u, |m.lists|);
  }

  lemma StrayWeighs(m: Machine)
    requires AllOnce(m) && |m.control| > 0
    requires var f := m.control[|m.control| - 1]; !f.Body? && f.target >= |m.lists|
    ensures AllOnce(Step(m)) && Weight(Step(m)) < Weight(m)
  {
    var n := |m.control| - 1;
    StepKeeps(m);
    assert m.control == m.control[..n] + [m.control[n]];
    ControlPush(m.control[..n], m.control[n]);
    SumChange(m, Step(m), |m.lists|, |m.lists|);
  }

  /** Every step leaves less to be done. */
  lemma StepWeighs(m: Machine)
    requires AllOnce(m) && |m.control| > 0
    ensures AllOnce(Step(m)) && Weight(Step(m)) < Weight(m)
  {
    var f := m.control[|m.control| - 1];
    if f.Body? {
      BodyWeighs(m);
    } else if f.target >= |m.lists| {
      StrayWeighs(m);
    } else if f.Returned? {
      if f.returnsFalse && m.lists[f.target].options.stopOnFalse {
        LeaveWeighs(m, f.target, m.lists[f.target].(memory := None));
      } else {
        ReturnWeighs(m, f.target, f.data, f.returnsFalse);
      }
    } else if m.lists[f.target].list.Some? && m.lists[f.target].firingIndex < m.lists[f.target].firingLength {
      CallWeighs(m, f.target, f.data);
    } else {
      LeaveWeighs(m, f.target, m.lists[f.target]);
    }
  }

  lemma {:induction false} RunWeighs(m: Machine, steps: nat)
    requires AllOnce(m)
    ensures AllOnce(Run(m, steps)) && (Run(m, steps).control == [] || Weight(Run(m, steps)) + steps <= Weight(m))
  {
    if steps > 0 {
      RunWeighs(m, steps - 1);
      if Run(m, steps - 1).control != [] {
        StepWeighs(Run(m, steps - 1));
      }
    }
  }

  /** The steps a program takes at most. */
  function Bound(program: seq<Op>): nat {
    1 + OpsWeight(program)
  }

  lemma {:induction false} NothingToSum(m: Machine, k: nat)
    requires k <= |m.lists| && forall t :: 0 <= t < |m.lists| ==> ListWeight(m.lists[t], Frames(m.control, t)) == 0
    ensures ListsWeight(m, k) == 0
  {
    if k > 0 {
      NothingToSum(m, k - 1);
    }
  }

  lemma StartWeighs(options: seq<Options>, program: seq<Op>)
    ensures Weight(Start(options, program)) == Bound(program)
  {
    var m := Start(options, program);
    ControlPush([], Body(program));
    assert m.control == [] + [Body(program)];
    NothingToSum(m, |m.lists|);
  }

  lemma SomethingLeft(m: Machine)
    requires m.control != []
    ensures Weight(m) > 0
  {
    assert FrameWeight(m.control[|m.control| - 1]) > 0;
  }

  /** Every program on lists that are fired once ends, with a bound that can be read from the program:
      whatever is added and fired while lists are fired, each body runs once for each time its callback
      was added. */
  lemma OnceEnds(options: seq<Options>, program: seq<Op>)
    requires forall t :: 0 <= t < |options| ==> options[t].once
    ensures Run(Start(options, program), Bound(program)).control == []
  {
    var start := Start(options, program);
    StartHolds(options, program);
    RunWeighs(start, Bound(program));
    StartWeighs(options, program);
    if Run(start, Bound(program)).control != [] {
      SomethingLeft(Run(start, Bound(program)));
      assert false;
    }
  }

  // ---------------------------------------------------------------------------
  // Callbacks that are to run do run

  /** Operations that do nothing to list t but add to it and fire it. */
  ghost function HarmlessTo(t: nat): Op -> bool {
    (op: Op) => Harmless(op, t)
  }

  /** A program on lists that are fired once, which does nothing to the "once memory" list t but add to it
      and fire it, ends; and then every callback added to t, before, during or after its firing, has run
      exactly once, in the order of adding, with the data of the first firing, if there was one. */
  lemma EveryCallbackRuns(options: seq<Options>, program: seq<Op>, t: nat)
    requires forall u :: 0 <= u < |options| ==> options[u].once
    requires t < |options| && OnceMemory(options[t]) && OpsFit(program, HarmlessTo(t))
    ensures var m := Run(Start(options, program), Bound(program));
      && |m.control| == 0
      && Ran(m.log, t) == (if FirstFire(m.log, t).Some? then Added(m.log, t) else [])
      && CallsGet(m.log, t, FirstFire(m.log, t))
  {
    OnceEnds(options, program);
    OnlyWritten(options, program, Bound(program), HarmlessTo(t));
    ExactlyOnce(options, program, Bound(program), t);
  }

  // ---------------------------------------------------------------------------
  // A list that can be fired again need not come to an end

  const REPEATABLE := Options(false, false, false, false)

  /** Fires its list again. */
  function Repeater(): Callback {
    Callback(1, [Fire(0, 5)], false)
  }

  function Repeating(): seq<Op> {
    [Add(0, [Repeater()]), Fire(0, 5)]
  }

  function RepeatedList(stack: seq<Data>, index: int): CallbackList {
    CallbackList(REPEATABLE, Some([Repeater()]), Some(stack), None, true, true, index, 1, 0)
  }

  /** Each firing of the list is the same again: five steps. */
  ghost predicate InRound(m: Machine) {
    || (m.lists == [RepeatedList([], 0)] && m.control == [Body([])] + [Test(0, 5)])
    || (m.lists == [RepeatedList([], 0)] && m.control == [Body([]), Returned(0, 5, false)] + [Body([Fire(0, 5)])])
    || (m.lists == [RepeatedList([5], 0)] && m.control == [Body([]), Returned(0, 5, false)] + [Body([])])
    || (m.lists == [RepeatedList([5], 0)] && m.control == [Body([])] + [Returned(0, 5, false)])
    || (m.lists == [RepeatedList([5], 1)] && m.control == [Body([])] + [Test(0, 5)])
  }

  lemma RoundGoesOn(m: Machine)
    requires InRound(m)
    ensures InRound(Step(m))
  {
    var n := |m.control| - 1;
    var none: seq<Data> := [];
    assert m.control == m.control[..n] + [m.control[n]];
    assert [Fire(0, 5)][1..] == [] && none + [5] == [5] && [5][1..] == none;
    var f, fires := Returned(0, 5, false), Body([Fire(0, 5)]);
    assert [Body([])] + [f, fires] == [Body([]), f] + [fires];
    assert [Body([]), Returned(0, 5, false)] == [Body([])] + [Returned(0, 5, false)];
  }

  lemma RoundBegins()
    ensures InRound(Run(Start([REPEATABLE], Repeating()), 2))
  {
    var start, l, one := Start([REPEATABLE], Repeating()), NewList(REPEATABLE), [Repeater()];
    var l1 := l.(list := Some(one));
    PushedAll([], one);
    assert [] + one == one;
    assert Repeating() == [Add(0, one)] + [Fire(0, 5)] && [Fire(0, 5)] == [Fire(0, 5)] + [];
    assert start.lists == [l] && start.control == [] + [Body(Repeating())];
    OpStep(l, [], Add(0, one), [Fire(0, 5)], [], l1);
    FireStep(l1, [], Fire(0, 5), [], [] + [Did(Add(0, one))], 5);
    assert Run(start, 0) == start && Run(start, 1) == Step(start);
  }

  lemma {:induction false} StaysInRound(steps: nat)
    ensures InRound(Run(Start([REPEATABLE], Repeating()), 2 + steps))
  {
    if steps == 0 {
      RoundBegins();
    } else {
      StaysInRound(steps - 1);
      RoundGoesOn(Run(Start([REPEATABLE], Repeating()), 2 + (steps - 1)));
    }
  }

  /** A callback that fires its own list makes a list without "once" fire for ever. */
  lemma RepeatedNeverEnds(steps: nat)
    ensures Run(Start([REPEATABLE], Repeating()), steps).control != []
  {
    StaysInRound(steps);
    LastsBefore(Start([REPEATABLE], Repeating()), steps, 2 + steps);
  }
}
