/** Deferreds, any number of them, whose handlers may settle one another.  A deferred is three callback
    lists and a state.  Its own callbacks come first in the done and fail lists: they set the state,
    disable the other list and lock the progress list. */
module Deferreds {
  import opened CallbackLists
  import opened CallbackQueues
  import opened CallbackPrograms

  const DONE := 0
  const FAIL := 1
  const PROGRESS := 2

  const PENDING := 0

  const ONCE_MEMORY := Options(true, true, false, false)
  const MEMORY := Options(false, true, false, false)

  /** The number of list i of deferred d. */
  function ListOf(d: nat, i: nat): nat {
    3 * d + i
  }

  /** Operation k of the deferred's own callbacks in list i. */
  function OwnOp(d: nat, i: nat, k: nat): Op
    requires i < 2 && k < 3
  {
    if k == 0 then Settle(d, i + 1) else if k == 1 then Disable(ListOf(d, 1 - i)) else Lock(ListOf(d, PROGRESS))
  }

  function Own(d: nat, i: nat): (cbs: seq<Callback>)
    requires i < 2
    ensures |cbs| == 3
  {
    seq(3, k requires 0 <= k < 3 => Callback(0, [OwnOp(d, i, k)], false))
  }

  /** A new deferred's list. */
  function NewOf(d: nat, i: nat): CallbackList
    requires i < 3
  {
    if i < 2 then AddTo(NewList(ONCE_MEMORY), Own(d, i)).0 else NewList(MEMORY)
  }

  /** The state of a deferred. */
  function StateOf(m: Machine, d: nat): nat {
    if d in m.states then m.states[d] else PENDING
  }

  /** New deferreds, on which a program is run. */
  function New(deferreds: nat, program: seq<Op>): Machine {
    Machine(seq(3 * deferreds, t requires 0 <= t < 3 * deferreds => NewOf(t / 3, t % 3)), [Body(program)], map[], [])
  }

  // ---------------------------------------------------------------------------
  // What a program may do

  /** The operation does nothing to the lists of deferred d but add to them and fire them, and does not
      set its state. */
  ghost predicate LeavesAlone(op: Op, d: nat) {
    match op
    case Add(_, _) => true
    case Fire(_, _) => true
    case Settle(e, _) => e != d
    case _ => !(ListOf(d, DONE) <= op.target <= ListOf(d, PROGRESS))
  }

  ghost function Outside(d: nat): Op -> bool {
    (op: Op) => LeavesAlone(op, d)
  }

  /** What users can reach: done, fail and progress add callbacks; resolve, reject and notify fire. */
  ghost function UserOps(): Op -> bool {
    (op: Op) => op.Add? || op.Fire?
  }

  /** Users' programs leave every deferred alone. */
  lemma UsersLeaveAlone(program: seq<Op>, d: nat)
    requires OpsFit(program, UserOps())
    ensures OpsFit(program, Outside(d))
  {
    forall i | 0 <= i < |program| ensures OpFits(program[i], Outside(d)) {
      OpWeaker(program[i], UserOps(), Outside(d));
    }
  }

  /** The own callbacks of another deferred do too. */
  lemma OwnsLeaveAlone(d: nat, e: nat, i: nat)
    requires i < 2 && d != e
    ensures CallbacksFit(Own(e, i), Outside(d))
  {
    forall k | 0 <= k < 3 ensures CallbackFits(Own(e, i)[k], Outside(d)) {
      assert LeavesAlone(OwnOp(e, i, k), d);
    }
  }

  // ---------------------------------------------------------------------------
  // Lists of a deferred

  /** The lists of handlers that settle it. */
  ghost function Handlers(d: nat): set<nat> {
    {ListOf(d, DONE), ListOf(d, FAIL)}
  }

  ghost predicate HasOwn(l: CallbackList, d: nat, i: nat)
    requires i < 2
  {
    && l.options == ONCE_MEMORY && l.stack.None? && l.list.Some? && |l.list.value| >= 3
    && l.list.value[..3] == Own(d, i) && CallbacksFit(l.list.value[3..], Outside(d))
  }

  ghost predicate PendingList(l: CallbackList, d: nat, i: nat)
    requires i < 2
  {
    HasOwn(l, d, i) && l.memory.None? && !l.fired && !l.firing
  }

  /** The list that has been fired, while its own callbacks run. */
  ghost predicate SettlingList(l: CallbackList, d: nat, i: nat)
    requires i < 2
  {
    HasOwn(l, d, i) && l.memory.Some? && l.fired && l.firing
  }

  /** The list that has been fired, when only users' callbacks are left in it. */
  ghost predicate SettledList(l: CallbackList, d: nat, frames: seq<Frame>) {
    && l.options == ONCE_MEMORY && l.stack.None? && l.list.Some? && l.memory.Some? && l.fired
    && ListOk(l, frames)
    && if l.firing
       then forall j :: 0 <= j < |l.list.value| && j >= l.firingIndex + (if frames[0].Test? then 0 else 1) ==>
              CallbackFits(l.list.value[j], Outside(d))
       else l.list.value == []
  }

  /** The other list. */
  ghost predicate DeadList(l: CallbackList) {
    l.list.None? && !l.firing
  }

  ghost predicate ProgressList(l: CallbackList, locked: bool) {
    && l.options == MEMORY && (l.memory.Some? ==> l.fired)
    && if locked then l.stack.None? && (l.list.Some? ==> l.memory.Some?) else l.stack.Some? && l.list.Some?
  }

  // ---------------------------------------------------------------------------
  // Stages

  /** Pending; settling through list i, at its own callback k, in one of four phases: before the loop
      test, with the callback's operation to be done, with it done, and back in the loop; settled. */
  datatype Stage = Pending | Settling(i: nat, k: nat, phase: nat) | Settled(i: nat)

  /** The innermost frames of a phase. */
  ghost function Innermost(d: nat, i: nat, k: nat, phase: nat, data: Data): seq<Frame>
    requires i < 2 && k < 3
  {
    if phase == 0 then [Test(ListOf(d, i), data)]
    else if phase == 1 then [Returned(ListOf(d, i), data, false), Body([OwnOp(d, i, k)])]
    else if phase == 2 then [Returned(ListOf(d, i), data, false), Body([])]
    else [Returned(ListOf(d, i), data, false)]
  }

  ghost predicate Has(m: Machine, d: nat) {
    ListOf(d, PROGRESS) < |m.lists|
  }

  ghost predicate InPending(m: Machine, d: nat)
    requires Has(m, d)
  {
    && StateOf(m, d) == PENDING && FramesFit(m.control, Outside(d))
    && PendingList(m.lists[ListOf(d, DONE)], d, DONE) && PendingList(m.lists[ListOf(d, FAIL)], d, FAIL)
    && ProgressList(m.lists[ListOf(d, PROGRESS)], false)
  }

  /** How many of its own operations are done. */
  function DoneOps(k: nat, phase: nat): nat {
    if phase >= 2 then k + 1 else k
  }

  /** The lists and the state when so many of the own operations of list i are done. */
  ghost predicate OwnDone(m: Machine, d: nat, i: nat, done: nat)
    requires Has(m, d) && i < 2
  {
    && SettlingList(m.lists[ListOf(d, i)], d, i)
    && StateOf(m, d) == (if done >= 1 then i + 1 else PENDING)
    && (if done >= 2 then DeadList(m.lists[ListOf(d, 1 - i)]) else PendingList(m.lists[ListOf(d, 1 - i)], d, 1 - i))
    && ProgressList(m.lists[ListOf(d, PROGRESS)], done >= 3)
  }

  ghost predicate InSettling(m: Machine, d: nat, i: nat, k: nat, phase: nat, lower: seq<Frame>, data: Data)
    requires Has(m, d) && i < 2 && k < 3 && phase < 4
  {
    && m.control == lower + Innermost(d, i, k, phase, data) && FramesFit(lower, Outside(d)) && NoTests(lower)
    && OwnDone(m, d, i, DoneOps(k, phase)) && m.lists[ListOf(d, i)].firingIndex == k
  }

  ghost predicate InSettled(m: Machine, d: nat, i: nat)
    requires Has(m, d) && i < 2
  {
    && StateOf(m, d) == i + 1 && FramesFit(m.control, Outside(d))
    && SettledList(m.lists[ListOf(d, i)], d, Frames(m.control, ListOf(d, i)))
    && DeadList(m.lists[ListOf(d, 1 - i)]) && ProgressList(m.lists[ListOf(d, PROGRESS)], true)
  }

  /** The callbacks in all lists but the deferred's handlers leave it alone. */
  ghost predicate Sound(m: Machine, d: nat) {
    Has(m, d) && Inv(m) && ListsFit(m.lists, Outside(d), Handlers(d))
  }

  /** Stage s describes deferred d. */
  ghost predicate AtStage(m: Machine, d: nat, s: Stage) {
    Sound(m, d) &&
    match s
    case Pending => InPending(m, d)
    case Settling(i, k, phase) =>
      i < 2 && k < 3 && phase < 4 && exists lower, data :: InSettling(m, d, i, k, phase, lower, data)
    case Settled(i) => i < 2 && InSettled(m, d, i)
  }

  /** Handlers called so far: none of done or fail while pending, then none of the other list. */
  ghost predicate CallsOk(log: seq<Event>, d: nat, s: Stage) {
    forall j :: 0 <= j < |log| && log[j].Called? && log[j].target in Handlers(d) ==>
      match s
      case Pending => false
      case Settling(i, _, _) => log[j].target == ListOf(d, i)
      case Settled(i) => log[j].target == ListOf(d, i)
  }

  lemma NewIsPending(d: nat, i: nat)
    requires i < 2
    ensures PendingList(NewOf(d, i), d, i)
  {
    PushedAll([], Own(d, i));
    assert [] + Own(d, i) == Own(d, i) && Own(d, i)[..3] == Own(d, i) && Own(d, i)[3..] == [];
  }

  lemma NewFits(d: nat, e: nat, i: nat)
    requires i < 3 && d != e
    ensures ListFits(NewOf(e, i), Outside(d))
  {
    if i < 2 {
      OwnsLeaveAlone(d, e, i);
      PushedFits([], Own(e, i), false, Outside(d));
    }
  }

  lemma NewInv(deferreds: nat, program: seq<Op>)
    ensures Inv(New(deferreds, program))
  {
    var m := New(deferreds, program);
    forall t | 0 <= t < |m.lists| ensures ListOk(m.lists[t], Frames(m.control, t)) {
      FramesPush([], Body(program), t);
      assert [] + [Body(program)] == [Body(program)] && Frames(m.control, t) == [];
    }
  }

  lemma NewListsFit(deferreds: nat, program: seq<Op>, d: nat)
    ensures ListsFit(New(deferreds, program).lists, Outside(d), Handlers(d))
  {
    var m := New(deferreds, program);
    forall t: nat | t < |m.lists| && t !in Handlers(d) ensures ListFits(m.lists[t], Outside(d)) {
      if t / 3 != d {
        NewFits(d, t / 3, t % 3);
      }
    }
  }

  lemma NewLists(deferreds: nat, program: seq<Op>, d: nat)
    requires d < deferreds
    ensures var m := New(deferreds, program);
      Has(m, d) && forall i :: 0 <= i < 3 ==> m.lists[ListOf(d, i)] == NewOf(d, i)
  {
    forall i | 0 <= i < 3 ensures New(deferreds, program).lists[ListOf(d, i)] == NewOf(d, i) {
      assert ListOf(d, i) / 3 == d && ListOf(d, i) % 3 == i;
    }
  }

  lemma NewInPending(m: Machine, d: nat, program: seq<Op>)
    requires Has(m, d) && m.control == [Body(program)] && OpsFit(program, Outside(d)) && m.states == map[]
    requires forall i :: 0 <= i < 3 ==> m.lists[ListOf(d, i)] == NewOf(d, i)
    ensures InPending(m, d)
  {
    NewIsPending(d, DONE);
    NewIsPending(d, FAIL);
  }

  lemma StartsPending(deferreds: nat, program: seq<Op>, d: nat)
    requires d < deferreds && OpsFit(program, Outside(d))
    ensures AtStage(New(deferreds, program), d, Pending) && CallsOk(New(deferreds, program).log, d, Pending)
  {
    NewInv(deferreds, program);
    NewLists(deferreds, program, d);
    NewInPending(New(deferreds, program), d, program);
    NewListsFit(deferreds, program, d);
  }

  // ---------------------------------------------------------------------------
  // Operations on its lists

  lemma FitsConcat(a: seq<Callback>, b: seq<Callback>, p: Op -> bool)
    requires CallbacksFit(a, p) && CallbacksFit(b, p)
    ensures CallbacksFit(a + b, p)
  {}

  lemma PendingAdd(l: CallbackList, d: nat, i: nat, cbs: seq<Callback>)
    requires i < 2 && PendingList(l, d, i) && CallbacksFit(cbs, Outside(d))
    ensures var r := AddTo(l, cbs); r.1.None? && PendingList(r.0, d, i)
  {
    PushedAll(l.list.value, cbs);
    FitsConcat(l.list.value[3..], cbs, Outside(d));
    assert (l.list.value + cbs)[3..] == l.list.value[3..] + cbs;
  }

  lemma PendingFire(l: CallbackList, d: nat, i: nat, data: Data)
    requires i < 2 && PendingList(l, d, i) && l.firingStart == 0
    ensures var r := FireWith(l, data);
      r.1 == Some(data) && r.0.list.Some? && SettlingList(Stored(r), d, i) && Stored(r).firingIndex == 0
  {}

  lemma ProgressAdd(l: CallbackList, locked: bool, cbs: seq<Callback>)
    requires ProgressList(l, locked)
    ensures ProgressList(Stored(AddTo(l, cbs)), locked)
  {}

  lemma ProgressFire(l: CallbackList, locked: bool, data: Data)
    requires ProgressList(l, locked)
    ensures ProgressList(Stored(FireWith(l, data)), locked)
    ensures locked ==> FireWith(l, data) == (l, None)
  {}

  lemma ProgressEnd(l: CallbackList, locked: bool)
    requires ProgressList(l, locked)
    ensures ProgressList(Stored(EndFire(l)), locked)
  {}

  lemma SettledAdd(l: CallbackList, d: nat, i: nat, cbs: seq<Callback>, frames: seq<Frame>)
    requires SettledList(l, d, frames) && Waiting(frames) && CallbacksFit(cbs, Outside(d))
    ensures SettledList(Stored(AddTo(l, cbs)), d, FramesStored(AddTo(l, cbs), frames, i))
  {
    PushedAll(l.list.value, cbs);
    var r := AddTo(l, cbs);
    if r.1.Some? {
      assert frames + [Test(i, r.1.value)] == [Test(i, r.1.value)];
    }
  }

  // ---------------------------------------------------------------------------
  // Steps beside the deferred

  /** At most one event is added, and no call of its handlers. */
  ghost predicate AddsNoCall(log: seq<Event>, more: seq<Event>, d: nat) {
    || more == log
    || (|more| == |log| + 1 && more[..|log|] == log && (more[|log|].Called? ==> more[|log|].target !in Handlers(d)))
  }

  ghost predicate KeepsProgress(l: CallbackList, r: CallbackList) {
    (ProgressList(l, true) ==> ProgressList(r, true)) && (ProgressList(l, false) ==> ProgressList(r, false))
  }

  /** List t and its firings are as they were. */
  ghost predicate SameList(m: Machine, r: Machine, t: nat)
    requires t < |m.lists| == |r.lists|
  {
    r.lists[t] == m.lists[t] && Frames(r.control, t) == Frames(m.control, t)
  }

  /** What a step leaves alone that is not one of the deferred's handlers' lists. */
  ghost predicate Beside(m: Machine, r: Machine, d: nat)
    requires Has(m, d)
  {
    && |r.lists| == |m.lists| && Fits(r, Outside(d), Handlers(d))
    && SameList(m, r, ListOf(d, DONE)) && SameList(m, r, ListOf(d, FAIL)) && StateOf(r, d) == StateOf(m, d)
    && KeepsProgress(m.lists[ListOf(d, PROGRESS)], r.lists[ListOf(d, PROGRESS)]) && AddsNoCall(m.log, r.log, d)
  }

  /** A body is done. */
  lemma PopBeside(m: Machine, d: nat)
    requires Sound(m, d) && FramesFit(m.control, Outside(d))
    requires |m.control| > 0 && m.control[|m.control| - 1] == Body([])
    ensures Beside(m, Step(m), d)
  {
    BodyFits(m, Outside(d), Handlers(d));
  }

  /** What an operation does to its list of progress handlers. */
  lemma ProgressResult(l: CallbackList, op: Op, d: nat)
    requires LeavesAlone(op, d) && !op.Settle? && op.target == ListOf(d, PROGRESS)
    ensures KeepsProgress(l, Stored(Result(l, op)))
  {
    forall locked | ProgressList(l, locked) ensures ProgressList(Stored(Result(l, op)), locked) {
      if op.Add? {
        ProgressAdd(l, locked, op.cbs);
      } else {
        ProgressFire(l, locked, op.data);
      }
    }
  }

  /** An operation on another list, or on another deferred. */
  lemma OpBeside(m: Machine, d: nat, op: Op, rest: seq<Op>)
    requires Sound(m, d) && FramesFit(m.control, Outside(d))
    requires |m.control| > 0 && m.control[|m.control| - 1] == Body([op] + rest)
    requires op.Settle? || op.target !in Handlers(d)
    ensures Beside(m, Step(m), d)
  {
    BodyFits(m, Outside(d), Handlers(d));
    PastFits(m, Outside(d), Handlers(d));
    assert LeavesAlone(op, d);
    BodyStep(m, op, rest, ListOf(d, DONE));
    BodyStep(m, op, rest, ListOf(d, FAIL));
    BodyStep(m, op, rest, ListOf(d, PROGRESS));
    if !op.Settle? && op.target == ListOf(d, PROGRESS) {
      ProgressResult(m.lists[op.target], op, d);
    }
  }

  lemma LoopReturns(m: Machine, f: Frame, t: nat)
    requires |m.control| > 0 && m.control[|m.control| - 1] == f && f.Returned? && f.target < |m.lists|
    requires t < |m.lists| && t != f.target
    ensures SameList(m, Step(m), t) && Step(m).states == m.states
  {
    var n, l := |m.control| - 1, m.lists[f.target];
    if f.returnsFalse && l.options.stopOnFalse {
      LeaveStep(m, f.target, l.(memory := None), t);
    } else {
      FramesPush(m.control[..n], Test(f.target, f.data), t);
    }
  }

  /** What the loop of list u does to another list, and to the states. */
  lemma LoopStep(m: Machine, u: nat, t: nat)
    requires Inv(m) && |m.control| > 0 && IsFor(m.control[|m.control| - 1], u) && t < |m.lists| && t != u
    ensures SameList(m, Step(m), t) && Step(m).states == m.states
  {
    var f := m.control[|m.control| - 1];
    if u < |m.lists| {
      var l := m.lists[u];
      if f.Returned? {
        LoopReturns(m, f, t);
      } else if l.list.Some? && l.firingIndex < l.firingLength {
        CallStep(m, u, f.data);
      } else {
        LeaveStep(m, u, l, t);
      }
    }
  }

  /** The events of the loop of list u are its calls and its end. */
  lemma LoopLogs(m: Machine, u: nat)
    requires |m.control| > 0 && IsFor(m.control[|m.control| - 1], u)
    ensures || Step(m).log == m.log
            || (|Step(m).log| == |m.log| + 1 && Step(m).log[..|m.log|] == m.log
                && (Step(m).log[|m.log|].Called? ==> Step(m).log[|m.log|].target == u))
  {}

  lemma ProgressLoop(m: Machine, d: nat)
    requires Has(m, d) && |m.control| > 0 && IsFor(m.control[|m.control| - 1], ListOf(d, PROGRESS))
    ensures KeepsProgress(m.lists[ListOf(d, PROGRESS)], Step(m).lists[ListOf(d, PROGRESS)])
  {
    var l := m.lists[ListOf(d, PROGRESS)];
    forall locked | ProgressList(l, locked)
      ensures ProgressList(Step(m).lists[ListOf(d, PROGRESS)], locked)
    {
      ProgressEnd(l, locked);
    }
  }

  /** The loop of a list that does not settle the deferred. */
  lemma LoopBeside(m: Machine, d: nat, u: nat)
    requires Sound(m, d) && FramesFit(m.control, Outside(d))
    requires |m.control| > 0 && IsFor(m.control[|m.control| - 1], u) && u !in Handlers(d)
    ensures Beside(m, Step(m), d)
  {
    LoopFits(m, Outside(d), Handlers(d));
    LoopStep(m, u, ListOf(d, DONE));
    LoopStep(m, u, ListOf(d, FAIL));
    LoopLogs(m, u);
    if u == ListOf(d, PROGRESS) {
      ProgressLoop(m, d);
    } else {
      LoopStep(m, u, ListOf(d, PROGRESS));
    }
  }

  /** A list that is not firing is not in the innermost loop. */
  lemma NotInnermost(m: Machine, t: nat)
    requires Inv(m) && t < |m.lists| && !m.lists[t].firing && |m.control| > 0
    ensures !IsFor(m.control[|m.control| - 1], t)
  {
    assert ListOk(m.lists[t], Frames(m.control, t));
  }

  lemma CallsOkBeside(log: seq<Event>, more: seq<Event>, d: nat, s: Stage)
    requires CallsOk(log, d, s) && AddsNoCall(log, more, d)
    ensures CallsOk(more, d, s)
  {
    forall j | 0 <= j < |log| ensures more[j] == log[j] {
      assert more == log || more[..|log|][j] == log[j];
    }
  }

  // ---------------------------------------------------------------------------
  // Steps while pending

  lemma PendingBeside(m: Machine, d: nat, r: Machine)
    requires AtStage(m, d, Pending) && CallsOk(m.log, d, Pending) && Beside(m, r, d) && r == Step(m)
    ensures AtStage(r, d, Pending) && CallsOk(r.log, d, Pending)
  {
    StepKeeps(m);
    CallsOkBeside(m.log, r.log, d, Pending);
  }

  /** What an operation on list i of the deferred leaves alone. */
  lemma OpOnList(m: Machine, d: nat, i: nat, op: Op, rest: seq<Op>)
    requires Sound(m, d) && FramesFit(m.control, Outside(d)) && i < 2
    requires |m.control| > 0 && m.control[|m.control| - 1] == Body([op] + rest)
    requires !op.Settle? && op.target == ListOf(d, i)
    ensures Fits(Step(m), Outside(d), Handlers(d)) && OpFits(op, Outside(d)) && StateOf(Step(m), d) == StateOf(m, d)
    ensures SameList(m, Step(m), ListOf(d, 1 - i)) && SameList(m, Step(m), ListOf(d, PROGRESS))
    ensures Step(m).lists[op.target] == Stored(Result(m.lists[op.target], op))
    ensures AddsNoCall(m.log, Step(m).log, d)
  {
    BodyFits(m, Outside(d), Handlers(d));
    PastFits(m, Outside(d), Handlers(d));
    BodyStep(m, op, rest, ListOf(d, i));
    BodyStep(m, op, rest, ListOf(d, 1 - i));
    BodyStep(m, op, rest, ListOf(d, PROGRESS));
  }

  lemma StillPending(m: Machine, r: Machine, d: nat, i: nat)
    requires Has(m, d) && Has(r, d) && |m.lists| == |r.lists| && i < 2
    requires InPending(m, d) && FramesFit(r.control, Outside(d))
    requires StateOf(r, d) == StateOf(m, d) && PendingList(r.lists[ListOf(d, i)], d, i)
    requires SameList(m, r, ListOf(d, 1 - i)) && SameList(m, r, ListOf(d, PROGRESS))
    ensures InPending(r, d)
  {
    assert i == DONE || i == FAIL;
  }

  lemma PendingAdds(m: Machine, d: nat, i: nat, op: Op, rest: seq<Op>)
    requires AtStage(m, d, Pending) && CallsOk(m.log, d, Pending) && i < 2
    requires |m.control| > 0 && m.control[|m.control| - 1] == Body([op] + rest) && op.Add? && op.target == ListOf(d, i)
    ensures AtStage(Step(m), d, Pending) && CallsOk(Step(m).log, d, Pending)
  {
    StepKeeps(m);
    OpOnList(m, d, i, op, rest);
    PendingAdd(m.lists[op.target], d, i, op.cbs);
    StillPending(m, Step(m), d, i);
    CallsOkBeside(m.log, Step(m).log, d, Pending);
  }

  lemma SettlingWitness(m: Machine, d: nat, i: nat, k: nat, phase: nat, lower: seq<Frame>, data: Data)
    requires Sound(m, d) && i < 2 && k < 3 && phase < 4 && InSettling(m, d, i, k, phase, lower, data)
    ensures AtStage(m, d, Settling(i, k, phase))
  {}

  lemma PendingSettlesLists(m: Machine, d: nat, i: nat, op: Op, rest: seq<Op>)
    requires AtStage(m, d, Pending) && i < 2
    requires |m.control| > 0 && m.control[|m.control| - 1] == Body([op] + rest) && op.Fire? && op.target == ListOf(d, i)
    ensures Has(Step(m), d) && OwnDone(Step(m), d, i, 0) && Step(m).lists[ListOf(d, i)].firingIndex == 0
    ensures Step(m).control == Past(m).control + [Test(ListOf(d, i), op.data)]
  {
    assert ListOk(m.lists[op.target], Frames(m.control, op.target));
    PendingFire(m.lists[op.target], d, i, op.data);
    BodyStep(m, op, rest, ListOf(d, 1 - i));
    BodyStep(m, op, rest, ListOf(d, i));
    BodyStep(m, op, rest, ListOf(d, PROGRESS));
  }

  lemma PendingSettles(m: Machine, d: nat, i: nat, op: Op, rest: seq<Op>)
    requires AtStage(m, d, Pending) && CallsOk(m.log, d, Pending) && i < 2
    requires |m.control| > 0 && m.control[|m.control| - 1] == Body([op] + rest) && op.Fire? && op.target == ListOf(d, i)
    ensures AtStage(Step(m), d, Settling(i, 0, 0)) && CallsOk(Step(m).log, d, Settling(i, 0, 0))
  {
    StepKeeps(m);
    BodyFits(m, Outside(d), Handlers(d));
    PastFits(m, Outside(d), Handlers(d));
    PendingSettlesLists(m, d, i, op, rest);
    BodyStep(m, op, rest, ListOf(d, i));
    BeginsSettling(m.log, Step(m), d, i, Past(m).control, op);
  }

  lemma BeginsSettling(log: seq<Event>, m: Machine, d: nat, i: nat, lower: seq<Frame>, op: Op)
    requires Sound(m, d) && i < 2 && op.Fire? && FramesFit(lower, Outside(d)) && NoTests(lower)
    requires OwnDone(m, d, i, 0) && m.lists[ListOf(d, i)].firingIndex == 0
    requires m.control == lower + [Test(ListOf(d, i), op.data)] && CallsOk(log, d, Pending) && m.log == log + [Did(op)]
    ensures AtStage(m, d, Settling(i, 0, 0)) && CallsOk(m.log, d, Settling(i, 0, 0))
  {
    SettlingWitness(m, d, i, 0, 0, lower, op.data);
    CallsOkBeside(log, m.log, d, Pending);
  }

  lemma PendingOp(m: Machine, d: nat, op: Op, rest: seq<Op>) returns (s: Stage)
    requires AtStage(m, d, Pending) && CallsOk(m.log, d, Pending)
    requires |m.control| > 0 && m.control[|m.control| - 1] == Body([op] + rest)
    ensures AtStage(Step(m), d, s) && CallsOk(Step(m).log, d, s)
    ensures s == Pending || (s.Settling? && s.k == 0 && s.phase == 0)
  {
    s := Pending;
    PastFits(m, Outside(d), Handlers(d));
    assert LeavesAlone(op, d);
    if op.Settle? || op.target !in Handlers(d) {
      OpBeside(m, d, op, rest);
      PendingBeside(m, d, Step(m));
    } else {
      var i := op.target - ListOf(d, DONE);
      if op.Add? {
        PendingAdds(m, d, i, op, rest);
      } else {
        PendingSettles(m, d, i, op, rest);
        s := Settling(i, 0, 0);
      }
    }
  }

  lemma PendingStep(m: Machine, d: nat) returns (s: Stage)
    requires AtStage(m, d, Pending) && CallsOk(m.log, d, Pending)
    ensures AtStage(Step(m), d, s) && CallsOk(Step(m).log, d, s)
    ensures s == Pending || (s.Settling? && s.k == 0 && s.phase == 0)
  {
    s := Pending;
    if |m.control| > 0 {
      var top := m.control[|m.control| - 1];
      if top.Body? && |top.ops| > 0 {
        assert top.ops == [top.ops[0]] + top.ops[1..];
        s := PendingOp(m, d, top.ops[0], top.ops[1..]);
      } else {
        if top.Body? {
          PopBeside(m, d);
        } else {
          NotInnermost(m, ListOf(d, DONE));
          NotInnermost(m, ListOf(d, FAIL));
          LoopBeside(m, d, top.target);
        }
        PendingBeside(m, d, Step(m));
      }
    }
  }

  // ---------------------------------------------------------------------------
  // Settling

  function NextStage(i: nat, k: nat, phase: nat): Stage {
    if phase < 3 then Settling(i, k, phase + 1) else if k < 2 then Settling(i, k + 1, 0) else Settled(i)
  }

  /** The deferred's own callback is called. */
  lemma OwnCalled(m: Machine, d: nat, i: nat, k: nat, lower: seq<Frame>, data: Data)
    requires Sound(m, d) && i < 2 && k < 3 && InSettling(m, d, i, k, 0, lower, data)
    ensures InSettling(Step(m), d, i, k, 1, lower, data) && Step(m).lists == m.lists
    ensures Step(m).log == m.log + [Called(ListOf(d, i), Own(d, i)[k], data)]
  {
    var l := m.lists[ListOf(d, i)];
    assert m.control[|m.control| - 1] == Test(ListOf(d, i), data);
    assert m.control[..|m.control| - 1] == lower;
    assert ListOk(l, Frames(m.control, ListOf(d, i)));
    assert l.list.value[k] == l.list.value[..3][k] == Own(d, i)[k];
    assert lower + [Returned(ListOf(d, i), data, false), Body([OwnOp(d, i, k)])]
        == lower + Innermost(d, i, k, 1, data);
  }

  /** What its operation changes. */
  lemma OwnEffect(m: Machine, d: nat, i: nat, k: nat, r: Machine)
    requires Has(m, d) && i < 2 && k < 3 && r == Perform(m, OwnOp(d, i, k))
    requires OwnDone(m, d, i, k) && ListsFit(m.lists, Outside(d), Handlers(d))
    ensures Has(r, d) && r.control == m.control && r.log == m.log && r.lists[ListOf(d, i)] == m.lists[ListOf(d, i)]
    ensures OwnDone(r, d, i, k + 1) && ListsFit(r.lists, Outside(d), Handlers(d))
  {}

  /** Its operation is performed. */
  lemma OwnPerformed(m: Machine, d: nat, i: nat, k: nat, lower: seq<Frame>, data: Data)
    requires Sound(m, d) && i < 2 && k < 3 && InSettling(m, d, i, k, 1, lower, data)
    ensures Has(Step(m), d) && InSettling(Step(m), d, i, k, 2, lower, data)
    ensures ListsFit(Step(m).lists, Outside(d), Handlers(d)) && Step(m).log == m.log + [Did(OwnOp(d, i, k))]
  {
    var n := |m.control| - 1;
    assert m.control[n] == Body([OwnOp(d, i, k)]);
    assert m.control[..n] == lower + [Returned(ListOf(d, i), data, false)];
    assert [OwnOp(d, i, k)][1..] == [];
    var past := m.(control := m.control[..n] + [Body([])], log := m.log + [Did(OwnOp(d, i, k))]);
    assert past.control == lower + Innermost(d, i, k, 2, data);
    assert Step(m) == Perform(past, OwnOp(d, i, k));
    OwnEffect(past, d, i, k, Step(m));
  }

  /** It returns. */
  lemma OwnReturns(m: Machine, d: nat, i: nat, k: nat, lower: seq<Frame>, data: Data)
    requires Sound(m, d) && i < 2 && k < 3 && InSettling(m, d, i, k, 2, lower, data)
    ensures InSettling(Step(m), d, i, k, 3, lower, data) && Step(m).log == m.log && Step(m).lists == m.lists
  {
    var n := |m.control| - 1;
    assert m.control[n] == Body([]);
    assert m.control[..n] == lower + Innermost(d, i, k, 3, data);
  }

  /** The loop goes on. */
  lemma OwnNext(m: Machine, d: nat, i: nat, k: nat, lower: seq<Frame>, data: Data)
    requires Sound(m, d) && i < 2 && k < 2 && InSettling(m, d, i, k, 3, lower, data)
    ensures InSettling(Step(m), d, i, k + 1, 0, lower, data) && Step(m).log == m.log
    ensures ListsFit(Step(m).lists, Outside(d), Handlers(d))
  {
    var n := |m.control| - 1;
    assert m.control[n] == Returned(ListOf(d, i), data, false);
    assert m.control[..n] == lower;
  }

  /** After the third, the deferred is settled. */
  lemma OwnLast(m: Machine, d: nat, i: nat, lower: seq<Frame>, data: Data)
    requires Sound(m, d) && i < 2 && InSettling(m, d, i, 2, 3, lower, data)
    ensures AtStage(Step(m), d, Settled(i)) && Step(m).log == m.log
  {
    var n, r, t := |m.control| - 1, Step(m), ListOf(d, i);
    StepKeeps(m);
    assert m.control[n] == Returned(t, data, false);
    assert m.control[..n] == lower;
    FramesFitPush(lower, Test(t, data), Outside(d));
    FramesPush(lower, Test(t, data), t);
    assert ListOk(r.lists[t], Frames(r.control, t));
    var l := r.lists[t];
    forall j | 0 <= j < |l.list.value| && j >= 3 ensures CallbackFits(l.list.value[j], Outside(d)) {
      assert l.list.value[j] == l.list.value[3..][j - 3];
    }
  }

  /** At most one event is added, and no call on another list of handlers. */
  ghost predicate AddsCallOf(log: seq<Event>, more: seq<Event>, t: nat) {
    || more == log
    || (|more| == |log| + 1 && more[..|log|] == log && (more[|log|].Called? ==> more[|log|].target == t))
  }

  lemma CallsOkMore(log: seq<Event>, more: seq<Event>, d: nat, s: Stage, s': Stage)
    requires CallsOk(log, d, s) && (s.Settling? || s.Settled?) && (s'.Settling? || s'.Settled?) && s.i == s'.i
    requires AddsCallOf(log, more, ListOf(d, s.i))
    ensures CallsOk(more, d, s')
  {
    forall j | 0 <= j < |log| ensures more[j] == log[j] {
      assert more == log || more[..|log|][j] == log[j];
    }
  }

  lemma CallPhase(m: Machine, d: nat, i: nat, k: nat, lower: seq<Frame>, data: Data, r: Machine)
    requires Sound(m, d) && i < 2 && k < 3 && InSettling(m, d, i, k, 0, lower, data) && r == Step(m)
    ensures AtStage(r, d, Settling(i, k, 1)) && AddsCallOf(m.log, r.log, ListOf(d, i))
  {
    StepKeeps(m);
    OwnCalled(m, d, i, k, lower, data);
    SettlingWitness(r, d, i, k, 1, lower, data);
  }

  lemma PerformPhase(m: Machine, d: nat, i: nat, k: nat, lower: seq<Frame>, data: Data, r: Machine)
    requires Sound(m, d) && i < 2 && k < 3 && InSettling(m, d, i, k, 1, lower, data) && r == Step(m)
    ensures AtStage(r, d, Settling(i, k, 2)) && AddsCallOf(m.log, r.log, ListOf(d, i))
  {
    StepKeeps(m);
    OwnPerformed(m, d, i, k, lower, data);
    SettlingWitness(r, d, i, k, 2, lower, data);
  }

  lemma ReturnPhase(m: Machine, d: nat, i: nat, k: nat, lower: seq<Frame>, data: Data, r: Machine)
    requires Sound(m, d) && i < 2 && k < 3 && InSettling(m, d, i, k, 2, lower, data) && r == Step(m)
    ensures AtStage(r, d, Settling(i, k, 3)) && AddsCallOf(m.log, r.log, ListOf(d, i))
  {
    StepKeeps(m);
    OwnReturns(m, d, i, k, lower, data);
    SettlingWitness(r, d, i, k, 3, lower, data);
  }

  lemma NextPhase(m: Machine, d: nat, i: nat, k: nat, lower: seq<Frame>, data: Data, r: Machine)
    requires Sound(m, d) && i < 2 && k < 2 && InSettling(m, d, i, k, 3, lower, data) && r == Step(m)
    ensures AtStage(r, d, Settling(i, k + 1, 0)) && AddsCallOf(m.log, r.log, ListOf(d, i))
  {
    StepKeeps(m);
    OwnNext(m, d, i, k, lower, data);
    SettlingWitness(r, d, i, k + 1, 0, lower, data);
  }

  lemma SettlingPhase(m: Machine, d: nat, i: nat, k: nat, phase: nat, lower: seq<Frame>, data: Data, r: Machine)
    requires Sound(m, d) && i < 2 && k < 3 && phase < 4 && InSettling(m, d, i, k, phase, lower, data)
    requires r == Step(m)
    ensures AtStage(r, d, NextStage(i, k, phase)) && AddsCallOf(m.log, r.log, ListOf(d, i))
  {
    if phase == 0 {
      CallPhase(m, d, i, k, lower, data, r);
    } else if phase == 1 {
      PerformPhase(m, d, i, k, lower, data, r);
    } else if phase == 2 {
      ReturnPhase(m, d, i, k, lower, data, r);
    } else if k < 2 {
      NextPhase(m, d, i, k, lower, data, r);
    } else {
      OwnLast(m, d, i, lower, data);
    }
  }

  lemma SettlingStep(m: Machine, d: nat, i: nat, k: nat, phase: nat)
    requires AtStage(m, d, Settling(i, k, phase)) && CallsOk(m.log, d, Settling(i, k, phase))
    ensures AtStage(Step(m), d, NextStage(i, k, phase)) && CallsOk(Step(m).log, d, NextStage(i, k, phase))
  {
    var lower, data :| InSettling(m, d, i, k, phase, lower, data);
    SettlingPhase(m, d, i, k, phase, lower, data, Step(m));
    CallsOkMore(m.log, Step(m).log, d, Settling(i, k, phase), NextStage(i, k, phase));
  }

  // ---------------------------------------------------------------------------
  // Steps when settled

  lemma StaysSettled(m: Machine, d: nat, i: nat, r: Machine)
    requires Has(m, d) && i < 2 && InSettled(m, d, i) && Beside(m, r, d)
    ensures InSettled(r, d, i) && ListsFit(r.lists, Outside(d), Handlers(d))
  {
    assert ListOf(d, i) in Handlers(d) && ListOf(d, 1 - i) in Handlers(d);
  }

  lemma SettledBeside(m: Machine, d: nat, i: nat, r: Machine)
    requires AtStage(m, d, Settled(i)) && CallsOk(m.log, d, Settled(i)) && Beside(m, r, d) && r == Step(m)
    ensures AtStage(r, d, Settled(i)) && CallsOk(r.log, d, Settled(i))
  {
    StepKeeps(m);
    StaysSettled(m, d, i, r);
    CallsOkBeside(m.log, r.log, d, Settled(i));
  }

  lemma SettledAdds(m: Machine, d: nat, i: nat, op: Op, rest: seq<Op>)
    requires AtStage(m, d, Settled(i)) && CallsOk(m.log, d, Settled(i))
    requires |m.control| > 0 && m.control[|m.control| - 1] == Body([op] + rest) && op.Add? && op.target == ListOf(d, i)
    ensures AtStage(Step(m), d, Settled(i)) && CallsOk(Step(m).log, d, Settled(i))
  {
    StepKeeps(m);
    OpOnList(m, d, i, op, rest);
    BodyStep(m, op, rest, ListOf(d, i));
    SettledAdd(m.lists[op.target], d, op.target, op.cbs, Frames(m.control, op.target));
    CallsOkBeside(m.log, Step(m).log, d, Settled(i));
  }

  /** Once settled, resolve, reject and notify do nothing; nor does adding to the dead list. */
  lemma SettledFires(m: Machine, d: nat, i: nat, op: Op)
    requires Has(m, d) && i < 2 && InSettled(m, d, i)
    requires || (op.Fire? && ListOf(d, DONE) <= op.target <= ListOf(d, PROGRESS))
             || (op.Add? && op.target == ListOf(d, 1 - i))
    ensures Perform(m, op) == m && Result(m.lists[op.target], op) == (m.lists[op.target], None)
  {
    var l := m.lists[op.target];
    assert m.lists[op.target := l] == m.lists;
  }

  lemma SettledIgnores(m: Machine, d: nat, i: nat, op: Op, rest: seq<Op>)
    requires AtStage(m, d, Settled(i)) && CallsOk(m.log, d, Settled(i))
    requires |m.control| > 0 && m.control[|m.control| - 1] == Body([op] + rest)
    requires (op.Fire? && op.target in Handlers(d)) || (op.Add? && op.target == ListOf(d, 1 - i))
    ensures AtStage(Step(m), d, Settled(i)) && CallsOk(Step(m).log, d, Settled(i))
  {
    StepKeeps(m);
    BodyFits(m, Outside(d), Handlers(d));
    BodyStep(m, op, rest, ListOf(d, i));
    BodyStep(m, op, rest, ListOf(d, 1 - i));
    BodyStep(m, op, rest, ListOf(d, PROGRESS));
    SettledFires(m, d, i, op);
    CallsOkBeside(m.log, Step(m).log, d, Settled(i));
  }

  lemma SettledOp(m: Machine, d: nat, i: nat, op: Op, rest: seq<Op>)
    requires AtStage(m, d, Settled(i)) && CallsOk(m.log, d, Settled(i))
    requires |m.control| > 0 && m.control[|m.control| - 1] == Body([op] + rest)
    ensures AtStage(Step(m), d, Settled(i)) && CallsOk(Step(m).log, d, Settled(i))
  {
    PastFits(m, Outside(d), Handlers(d));
    assert LeavesAlone(op, d);
    if op.Settle? || op.target !in Handlers(d) {
      OpBeside(m, d, op, rest);
      SettledBeside(m, d, i, Step(m));
    } else if op.Add? && op.target == ListOf(d, i) {
      SettledAdds(m, d, i, op, rest);
    } else {
      SettledIgnores(m, d, i, op, rest);
    }
  }

  /** The loop of the settled list calls a user's callback. */
  lemma SettledCall(m: Machine, d: nat, i: nat, data: Data)
    requires AtStage(m, d, Settled(i)) && |m.control| > 0 && m.control[|m.control| - 1] == Test(ListOf(d, i), data)
    requires m.lists[ListOf(d, i)].firingIndex < m.lists[ListOf(d, i)].firingLength
    ensures Has(Step(m), d) && InSettled(Step(m), d, i) && Step(m).lists == m.lists
  {
    var n, l, r, t := |m.control| - 1, m.lists[ListOf(d, i)], Step(m), ListOf(d, i);
    CallStep(m, t, data);
    assert ListOk(l, Frames(m.control, t));
    assert Frames(m.control, t) == [Test(t, data)];
    var cb := l.list.value[l.firingIndex];
    var f := Returned(t, data, cb.returnsFalse);
    assert CallbackFits(cb, Outside(d));
    FramesFitPush(m.control[..n], f, Outside(d));
    FramesFitPush(m.control[..n] + [f], Body(cb.body), Outside(d));
    assert r.control == m.control[..n] + [f] + [Body(cb.body)];
    assert Frames(r.control, t) == [f];
  }

  /** It goes on. */
  lemma SettledReturn(m: Machine, d: nat, i: nat, f: Frame)
    requires AtStage(m, d, Settled(i)) && |m.control| > 0 && m.control[|m.control| - 1] == f
    requires f.Returned? && f.target == ListOf(d, i)
    ensures Has(Step(m), d) && InSettled(Step(m), d, i) && ListsFit(Step(m).lists, Outside(d), Handlers(d))
  {
    var n, t := |m.control| - 1, ListOf(d, i);
    StepKeeps(m);
    assert ListOk(m.lists[t], Frames(m.control, t));
    assert Frames(m.control, t) == [f];
    FramesFitPush(m.control[..n], Test(t, f.data), Outside(d));
    FramesPush(m.control[..n], Test(t, f.data), t);
    assert ListOk(Step(m).lists[t], Frames(Step(m).control, t));
  }

  /** It ends, and the list is emptied. */
  lemma SettledLeave(m: Machine, d: nat, i: nat, data: Data)
    requires AtStage(m, d, Settled(i)) && |m.control| > 0 && m.control[|m.control| - 1] == Test(ListOf(d, i), data)
    requires m.lists[ListOf(d, i)].firingIndex >= m.lists[ListOf(d, i)].firingLength
    ensures Has(Step(m), d) && InSettled(Step(m), d, i) && ListsFit(Step(m).lists, Outside(d), Handlers(d))
  {
    var t := ListOf(d, i);
    StepKeeps(m);
    LeaveStep(m, t, m.lists[t], t);
    assert ListOk(m.lists[t], Frames(m.control, t));
    assert Frames(m.control, t) == [Test(t, data)] && Frames(Step(m).control, t) == [];
    assert ListOk(Step(m).lists[t], []);
  }

  lemma SettledLoop(m: Machine, d: nat, i: nat)
    requires AtStage(m, d, Settled(i)) && |m.control| > 0 && IsFor(m.control[|m.control| - 1], ListOf(d, i))
    ensures Has(Step(m), d) && InSettled(Step(m), d, i) && ListsFit(Step(m).lists, Outside(d), Handlers(d))
  {
    var top := m.control[|m.control| - 1];
    if top.Returned? {
      SettledReturn(m, d, i, top);
    } else if m.lists[ListOf(d, i)].firingIndex < m.lists[ListOf(d, i)].firingLength {
      SettledCall(m, d, i, top.data);
    } else {
      SettledLeave(m, d, i, top.data);
    }
  }

  lemma SettledLoopStep(m: Machine, d: nat, i: nat, t: nat)
    requires AtStage(m, d, Settled(i)) && CallsOk(m.log, d, Settled(i))
    requires |m.control| > 0 && IsFor(m.control[|m.control| - 1], t)
    ensures AtStage(Step(m), d, Settled(i)) && CallsOk(Step(m).log, d, Settled(i))
  {
    if t == ListOf(d, i) {
      StepKeeps(m);
      SettledLoop(m, d, i);
      LoopLogs(m, t);
      CallsOkMore(m.log, Step(m).log, d, Settled(i), Settled(i));
    } else {
      NotInnermost(m, ListOf(d, 1 - i));
      LoopBeside(m, d, t);
      SettledBeside(m, d, i, Step(m));
    }
  }

  lemma SettledStep(m: Machine, d: nat, i: nat)
    requires AtStage(m, d, Settled(i)) && CallsOk(m.log, d, Settled(i))
    ensures AtStage(Step(m), d, Settled(i)) && CallsOk(Step(m).log, d, Settled(i))
  {
    if |m.control| > 0 {
      var top := m.control[|m.control| - 1];
      if !top.Body? {
        SettledLoopStep(m, d, i, top.target);
      } else if |top.ops| > 0 {
        assert top.ops == [top.ops[0]] + top.ops[1..];
        SettledOp(m, d, i, top.ops[0], top.ops[1..]);
      } else {
        PopBeside(m, d);
        SettledBeside(m, d, i, Step(m));
      }
    }
  }

  // ---------------------------------------------------------------------------
  // What every run has

  /** The stage after one step: settling never goes back, and never changes sides. */
  ghost predicate Onwards(s: Stage, r: Stage) {
    match s
    case Pending => true
    case Settling(i, _, _) => !r.Pending? && r.i == i
    case Settled(i) => r == s
  }

  lemma StepStage(m: Machine, d: nat, s: Stage) returns (r: Stage)
    requires m in Staged(d, s)
    ensures Step(m) in Staged(d, r) && Onwards(s, r)
    ensures StateOf(m, d) != PENDING ==> StateOf(Step(m), d) == StateOf(m, d)
  {
    match s
    case Pending => r := PendingStep(m, d);
    case Settling(i, k, phase) =>
      r := NextStage(i, k, phase);
      SettlingStep(m, d, i, k, phase);
    case Settled(i) =>
      r := s;
      SettledStep(m, d, i);
  }

  /** The machines that are at this stage, with no other calls than it allows. */
  ghost function Staged(d: nat, s: Stage): iset<Machine> {
    iset m: Machine | AtStage(m, d, s) && CallsOk(m.log, d, s)
  }

  lemma {:induction false} RunStage(m: Machine, d: nat, s: Stage, steps: nat) returns (end: Machine, r: Stage)
    requires m in Staged(d, s)
    ensures end == Run(m, steps) && end in Staged(d, r)
    ensures StateOf(m, d) != PENDING ==> StateOf(end, d) == StateOf(m, d)
  {
    if steps == 0 {
      end, r := m, s;
    } else {
      var before, stage := RunStage(m, d, s, steps - 1);
      end, r := RunStageStep(m, d, steps, before, stage);
    }
  }

  lemma RunStageStep(m: Machine, d: nat, steps: nat, before: Machine, s: Stage) returns (end: Machine, r: Stage)
    requires steps > 0 && before == Run(m, steps - 1) && before in Staged(d, s)
    ensures end == Run(m, steps) && end in Staged(d, r)
    ensures StateOf(before, d) != PENDING ==> StateOf(end, d) == StateOf(before, d)
  {
    RunOne(m, steps, before);
    end := Step(before);
    r := StepStage(before, d, s);
  }

  lemma StateOfStage(m: Machine, d: nat, s: Stage)
    requires AtStage(m, d, s)
    ensures StateOf(m, d) < 3
    ensures StateOf(m, d) != PENDING ==> (s.Settling? || s.Settled?) && StateOf(m, d) == s.i + 1
  {
    if s.Settling? {
      var lower, data :| InSettling(m, d, s.i, s.k, s.phase, lower, data);
    }
  }

  lemma StateStays(m: Machine, d: nat, s: Stage, steps: nat)
    requires AtStage(m, d, s) && CallsOk(m.log, d, s)
    ensures StateOf(m, d) < 3 && (StateOf(m, d) != PENDING ==> StateOf(Run(m, steps), d) == StateOf(m, d))
  {
    StateOfStage(m, d, s);
    var _, _ := RunStage(m, d, s, steps);
  }

  lemma StateFrom(m: Machine, r: Machine, d: nat, a: nat, c: nat)
    requires r == Run(m, a) && StateOf(Run(r, c), d) == StateOf(r, d)
    ensures StateOf(Run(m, a + c), d) == StateOf(r, d)
  {
    var _ := RunAdds(m, a, c);
  }

  lemma SettlesFrom(m: Machine, d: nat, a: nat, c: nat)
    requires AtStage(m, d, Pending) && CallsOk(m.log, d, Pending)
    ensures StateOf(Run(m, a), d) < 3
    ensures StateOf(Run(m, a), d) != PENDING ==> StateOf(Run(m, a + c), d) == StateOf(Run(m, a), d)
  {
    var end, s := RunStage(m, d, Pending, a);
    StateStays(end, d, s, c);
    if StateOf(end, d) != PENDING {
      StateFrom(m, end, d, a, c);
    }
  }

  /** Every deferred settles once: whatever users and their callbacks call, on it, on other deferreds or
      from the handlers of others, its state leaves pending at most once and then stays. */
  lemma SettlesOnce(deferreds: nat, program: seq<Op>, d: nat, steps: nat, more: nat)
    requires d < deferreds && OpsFit(program, Outside(d))
    ensures var start := New(deferreds, program);
      var state := StateOf(Run(start, steps), d);
      state < 3 && (state != PENDING ==> StateOf(Run(start, steps + more), d) == state)
  {
    StartsPending(deferreds, program, d);
    SettlesFrom(New(deferreds, program), d, steps, more);
  }

  /** All calls of handlers of the deferred are of one list, which agrees with its state. */
  ghost predicate OneSided(m: Machine, d: nat) {
    forall j, k :: 0 <= j < |m.log| && 0 <= k < |m.log| && m.log[j].Called? && m.log[k].Called?
                   && m.log[j].target in Handlers(d) && m.log[k].target in Handlers(d) ==>
      && m.log[j].target == m.log[k].target
      && (StateOf(m, d) != PENDING ==> m.log[j].target == ListOf(d, StateOf(m, d) - 1))
  }

  lemma CallsAgree(m: Machine, d: nat, s: Stage)
    requires AtStage(m, d, s) && CallsOk(m.log, d, s)
    ensures OneSided(m, d)
  {
    StateOfStage(m, d, s);
  }

  lemma RunAgrees(m: Machine, d: nat, steps: nat)
    requires AtStage(m, d, Pending) && CallsOk(m.log, d, Pending)
    ensures OneSided(Run(m, steps), d)
  {
    var end, s := RunStage(m, d, Pending, steps);
    CallsAgree(end, d, s);
  }

  /** Done and fail handlers of a deferred never both run, and what runs agrees with its state. */
  lemma OneSideRuns(deferreds: nat, program: seq<Op>, d: nat, steps: nat)
    requires d < deferreds && OpsFit(program, Outside(d))
    ensures OneSided(Run(New(deferreds, program), steps), d)
  {
    StartsPending(deferreds, program, d);
    RunAgrees(New(deferreds, program), d, steps);
  }

  /** The operation that is performed next. */
  ghost predicate IsNext(m: Machine, op: Op) {
    |m.control| > 0 && m.control[|m.control| - 1].Body?
    && |m.control[|m.control| - 1].ops| > 0 && m.control[|m.control| - 1].ops[0] == op
  }

  /** After a deferred has settled, resolve, reject and notify change no list and start nothing. */
  lemma NothingFiresAgain(deferreds: nat, program: seq<Op>, d: nat, steps: nat, op: Op)
    requires d < deferreds && OpsFit(program, Outside(d))
    requires op.Fire? && ListOf(d, DONE) <= op.target <= ListOf(d, PROGRESS)
    requires var m := Run(New(deferreds, program), steps); IsNext(m, op) && StateOf(m, d) != PENDING
    ensures var m := Run(New(deferreds, program), steps); Step(m) == Past(m)
  {
    StartsPending(deferreds, program, d);
    var m, s := RunStage(New(deferreds, program), d, Pending, steps);
    StateOfStage(m, d, s);
    OwnsAreNext(m, d, s);
    assert Result(m.lists[op.target], op) == (m.lists[op.target], None) by {
      SettledFires(m, d, s.i, op);
    }
    assert m.lists[op.target := m.lists[op.target]] == m.lists;
  }

  /** While a deferred settles, the next operation is its own. */
  lemma OwnIsNext(m: Machine, d: nat, i: nat, k: nat, phase: nat, lower: seq<Frame>, data: Data, op: Op)
    requires Has(m, d) && i < 2 && k < 3 && phase < 4 && InSettling(m, d, i, k, phase, lower, data)
    ensures IsNext(m, op) ==> !op.Fire?
  {
    assert |m.control| > 0;
    assert m.control[|m.control| - 1] == Innermost(d, i, k, phase, data)[|Innermost(d, i, k, phase, data)| - 1];
  }

  lemma OwnsAreNext(m: Machine, d: nat, s: Stage)
    requires AtStage(m, d, s)
    ensures s.Settling? ==> forall op :: IsNext(m, op) ==> !op.Fire?
  {
    if s.Settling? {
      var lower, data :| InSettling(m, d, s.i, s.k, s.phase, lower, data);
      forall op | IsNext(m, op) ensures !op.Fire? {
        OwnIsNext(m, d, s.i, s.k, s.phase, lower, data, op);
      }
    }
  }
}
