/** Callback lists whose callbacks may themselves add, remove, disable, lock, empty or fire, on any
    list, while a list is being fired.  The machine below runs such programs step by step. */
module CallbackLists {

  datatype Option<T> = None | Some(value: T)

  /** The context and arguments of a firing. */
  type Data = nat

  /** A callback is what it does when it is called, and whether it returns false. */
  datatype Callback = Callback(id: nat, body: seq<Op>, returnsFalse: bool)

  /** A call on list number target; Settle sets the state variable of a deferred, given by its number. */
  datatype Op =
    | Add(target: nat, cbs: seq<Callback>)
    | Remove(target: nat, id: nat)
    | Empty(target: nat)
    | Disable(target: nat)
    | Lock(target: nat)
    | Fire(target: nat, data: Data)
    | Settle(deferred: nat, final: nat)

  datatype Options = Options(once: bool, memory: bool, unique: bool, stopOnFalse: bool)

  /** The variables a list closes over; None is undefined (or false). */
  datatype CallbackList = CallbackList(options: Options, list: Option<seq<Callback>>, stack: Option<seq<Data>>,
                                       memory: Option<Data>, fired: bool, firing: bool,
                                       firingIndex: int, firingLength: int, firingStart: nat)

  function NewList(options: Options): CallbackList {
    CallbackList(options, Some([]), if options.once then None else Some([]), None, false, false, 0, 0, 0)
  }

  // ---------------------------------------------------------------------------
  // The methods of a list

  /** The start of fire(data); its loop is left to the machine. */
  function StartFire(l: CallbackList, data: Data): CallbackList
    requires l.list.Some?
  {
    l.(memory := if l.options.memory then Some(data) else None, fired := true, firingIndex := l.firingStart,
       firingStart := 0, firingLength := |l.list.value|, firing := true)
  }

  predicate Has(cbs: seq<Callback>, id: nat) {
    exists i :: 0 <= i < |cbs| && cbs[i].id == id
  }

  function Pushed(cbs: seq<Callback>, more: seq<Callback>, unique: bool): seq<Callback>
    decreases |more|
  {
    if |more| == 0 then cbs
    else Pushed(if unique && Has(cbs, more[0].id) then cbs else cbs + [more[0]], more[1..], unique)
  }

  /** add: the list, and what to fire it with at once. */
  function AddTo(l: CallbackList, cbs: seq<Callback>): (CallbackList, Option<Data>) {
    if l.list.None? then (l, None)
    else
      var start := |l.list.value|;
      var list := Pushed(l.list.value, cbs, l.options.unique);
      var more := l.(list := Some(list));
      if l.firing then (more.(firingLength := |list|), None)
      else if l.memory.Some? then (more.(firingStart := start), l.memory)
      else (more, None)
  }

  /** The first index from i on with this id; the length if there is none. */
  function IndexFrom(cbs: seq<Callback>, id: nat, i: nat): (k: nat)
    requires i <= |cbs|
    ensures i <= k <= |cbs| && (k < |cbs| ==> cbs[k].id == id)
    ensures forall j :: i <= j < k ==> cbs[j].id != id
    decreases |cbs| - i
  {
    if i == |cbs| || cbs[i].id == id then i else IndexFrom(cbs, id, i + 1)
  }

  /** Take out the callback at index k, moving the firing indexes along. */
  function RemoveAt(l: CallbackList, k: nat): CallbackList
    requires l.list.Some? && k < |l.list.value|
  {
    var shorter := l.(list := Some(l.list.value[..k] + l.list.value[k + 1..]));
    if l.firing then
      shorter.(firingLength := if k <= l.firingLength then l.firingLength - 1 else l.firingLength,
               firingIndex := if k <= l.firingIndex then l.firingIndex - 1 else l.firingIndex)
    else shorter
  }

  /** remove: take out the occurrences from index i on. */
  function RemoveFrom(l: CallbackList, id: nat, i: nat): CallbackList
    requires l.list.Some? && i <= |l.list.value|
    decreases |l.list.value| - i
  {
    var k := IndexFrom(l.list.value, id, i);
    if k == |l.list.value| then l else RemoveFrom(RemoveAt(l, k), id, k)
  }

  function DisableIt(l: CallbackList): CallbackList {
    l.(list := None, stack := None, memory := None)
  }

  function LockIt(l: CallbackList): CallbackList {
    if l.memory.None? then DisableIt(l) else l.(stack := None)
  }

  /** fireWith: the list, and what to fire it with at once. */
  function FireWith(l: CallbackList, data: Data): (CallbackList, Option<Data>) {
    if l.list.None? || (l.fired && l.stack.None?) then (l, None)
    else if l.firing && l.stack.Some? then (l.(stack := Some(l.stack.value + [data])), None)
    else (l, Some(data))
  }

  /** The end of fire: the list, and what to fire it with next. */
  function EndFire(l: CallbackList): (CallbackList, Option<Data>) {
    var done := l.(firing := false);
    if l.list.None? then (done, None)
    else if l.stack.Some? then
      if |l.stack.value| > 0 then (done.(stack := Some(l.stack.value[1..])), Some(l.stack.value[0]))
      else (done, None)
    else if l.memory.Some? then (done.(list := Some([])), None)
    else (DisableIt(done), None)
  }

  lemma {:induction false} PushedAll(cbs: seq<Callback>, more: seq<Callback>)
    ensures Pushed(cbs, more, false) == cbs + more
    decreases |more|
  {
    if |more| == 0 {
      assert cbs + more == cbs;
    } else {
      PushedAll(cbs + [more[0]], more[1..]);
      assert cbs + [more[0]] + more[1..] == cbs + more;
    }
  }

  // ---------------------------------------------------------------------------
  // The machine

  /** What remains to be done: the rest of a body, the loop test of a firing, or what a firing does
      when the callback it called returns. */
  datatype Frame =
    | Body(ops: seq<Op>)
    | Test(target: nat, data: Data)
    | Returned(target: nat, data: Data, returnsFalse: bool)

  /** An operation, a call, or the end of a firing. */
  datatype Event =
    | Did(op: Op)
    | Called(target: nat, cb: Callback, data: Data)
    | Ended(target: nat)

  /** The lists, the stack of calls (innermost last), the state variables that have been set, and what
      has happened. */
  datatype Machine = Machine(lists: seq<CallbackList>, control: seq<Frame>, states: map<nat, nat>, log: seq<Event>)

  /** What is stored of a result. */
  function Stored(result: (CallbackList, Option<Data>)): CallbackList {
    if result.1.Some? && result.0.list.Some? then StartFire(result.0, result.1.value) else result.0
  }

  /** Store list t, and fire it if asked to. */
  function Store(m: Machine, t: nat, result: (CallbackList, Option<Data>)): Machine
    requires t < |m.lists|
  {
    if result.1.Some? && result.0.list.Some? then
      m.(lists := m.lists[t := StartFire(result.0, result.1.value)], control := m.control + [Test(t, result.1.value)])
    else m.(lists := m.lists[t := result.0])
  }

  /** The list and firing request of an operation on its target. */
  function Result(l: CallbackList, op: Op): (CallbackList, Option<Data>)
    requires !op.Settle?
  {
    match op
    case Add(_, cbs) => AddTo(l, cbs)
    case Remove(_, id) => (if l.list.Some? then RemoveFrom(l, id, 0) else l, None)
    case Empty(_) => (l.(list := Some([]), firingLength := 0), None)
    case Disable(_) => (DisableIt(l), None)
    case Lock(_) => (LockIt(l), None)
    case Fire(_, data) => FireWith(l, data)
  }

  function Perform(m: Machine, op: Op): Machine {
    if op.Settle? then m.(states := m.states[op.deferred := op.final])
    else if op.target >= |m.lists| then m
    else Store(m, op.target, Result(m.lists[op.target], op))
  }

  /** The loop of a firing is over. */
  function Leave(m: Machine, t: nat, l: CallbackList): Machine
    requires t < |m.lists|
  {
    Store(m.(log := m.log + [Ended(t)]), t, EndFire(l))
  }

  /** One step.  Calling what is not there throws, which abandons everything. */
  function Step(m: Machine): (r: Machine)
    ensures |r.lists| == |m.lists|
  {
    if |m.control| == 0 then m
    else
      var n := |m.control| - 1;
      var rest := m.(control := m.control[..n]);
      match m.control[n]
      case Body(ops) =>
        if |ops| == 0 then rest
        else
          Perform(m.(control := m.control[..n] + [Body(ops[1..])], log := m.log + [Did(ops[0])]), ops[0])
      case Test(t, data) =>
        if t >= |m.lists| then rest
        else
          var l := m.lists[t];
          if l.list.Some? && l.firingIndex < l.firingLength then
            if 0 <= l.firingIndex < |l.list.value| then
              var cb := l.list.value[l.firingIndex];
              m.(control := m.control[..n] + [Returned(t, data, cb.returnsFalse), Body(cb.body)],
                 log := m.log + [Called(t, cb, data)])
            else m.(control := [])
          else Leave(rest, t, l)
      case Returned(t, data, returnsFalse) =>
        if t >= |m.lists| then rest
        else
          var l := m.lists[t];
          if returnsFalse && l.options.stopOnFalse then Leave(rest, t, l.(memory := None))
          else
            m.(lists := m.lists[t := l.(firingIndex := l.firingIndex + 1)],
               control := m.control[..n] + [Test(t, data)])
  }

  function Run(m: Machine, steps: nat): (r: Machine)
    ensures |r.lists| == |m.lists|
    decreases steps, m
  {
    if steps == 0 then m else Step(Run(m, steps - 1))
  }

  /** A program on new lists. */
  function Start(options: seq<Options>, program: seq<Op>): (m: Machine)
    ensures |m.lists| == |options|
  {
    Machine(seq(|options|, i requires 0 <= i < |options| => NewList(options[i])), [Body(program)], map[], [])
  }

  lemma RunOne(m: Machine, n: nat, before: Machine)
    requires n > 0 && before == Run(m, n - 1)
    ensures Run(m, n) == Step(before)
  {}

  lemma {:induction false} RunAdds(m: Machine, j: nat, k: nat) returns (r: Machine)
    ensures r == Run(Run(m, j), k) == Run(m, j + k)
    decreases k
  {
    if k == 0 {
      r := Run(m, j);
    } else {
      var before := RunAdds(m, j, k - 1);
      RunOne(Run(m, j), k, before);
      RunOne(m, j + k, before);
      r := Step(before);
    }
  }

  /** Some number of steps leads from m to r. */
  ghost predicate Reaches(m: Machine, r: Machine) {
    exists n: nat :: Run(m, n) == r
  }

  lemma ReachesSelf(m: Machine)
    ensures Reaches(m, m)
  {
    assert Run(m, 0) == m;
  }

  lemma ReachesNext(m: Machine, r: Machine)
    requires Reaches(m, r)
    ensures Reaches(m, Step(r))
  {
    var n: nat :| Run(m, n) == r;
    RunOne(m, n + 1, r);
  }

  lemma ReachesFurther(m: Machine, before: Machine, r: Machine)
    requires Reaches(m, before) && Reaches(before, r)
    ensures Reaches(m, r)
  {
    var j: nat :| Run(m, j) == before;
    var k: nat :| Run(before, k) == r;
    var _ := RunAdds(m, j, k);
  }

  /** After this many steps the machine has not come to an end. */
  ghost predicate Lasts(m: Machine, steps: nat) {
    Run(m, steps).control != []
  }

  lemma {:induction false} LastsBefore(m: Machine, i: nat, n: nat)
    requires Lasts(m, n) && i <= n
    ensures Lasts(m, i)
    decreases n
  {
    if i < n {
      LastsBefore(m, i, n - 1);
    }
  }

  // ---------------------------------------------------------------------------
  // Every list, in every run

  predicate IsFor(f: Frame, t: nat) {
    (f.Test? || f.Returned?) && f.target == t
  }

  /** The firings of list t on the stack of calls. */
  function Frames(control: seq<Frame>, t: nat): seq<Frame> {
    if |control| == 0 then []
    else
      var n := |control| - 1;
      Frames(control[..n], t) + if IsFor(control[n], t) then [control[n]] else []
  }

  lemma FramesPush(control: seq<Frame>, f: Frame, t: nat)
    ensures Frames(control + [f], t) == Frames(control, t) + if IsFor(f, t) then [f] else []
  {
    assert (control + [f])[..|control|] == control;
  }

  /** A list is being fired by one call at most; then it fires up to its end, and its index is at
      the callback that runs, or just before the next one if that was removed. */
  ghost predicate ListOk(l: CallbackList, frames: seq<Frame>) {
    && l.firingStart == 0 && (l.firing ==> l.fired)
    && |frames| == (if l.firing then 1 else 0)
    && (l.firing && l.list.Some? ==> l.firingLength == |l.list.value|)
    && (l.firing ==> l.firingIndex >= if frames[0].Test? then 0 else -1)
  }

  /** A loop test is always the innermost thing to do. */
  ghost predicate NoBuriedTest(control: seq<Frame>) {
    forall i :: 0 <= i < |control| - 1 ==> !control[i].Test?
  }

  ghost predicate Inv(m: Machine) {
    && NoBuriedTest(m.control)
    && forall t :: 0 <= t < |m.lists| ==> ListOk(m.lists[t], Frames(m.control, t))
  }

  // ---------------------------------------------------------------------------
  // The methods keep it

  /** While a body runs, the frame of a list that is firing waits for its return. */
  ghost predicate Waiting(frames: seq<Frame>) {
    forall i :: 0 <= i < |frames| ==> frames[i].Returned?
  }

  lemma {:induction false} RemoveKeeps(l: CallbackList, id: nat, i: nat, frames: seq<Frame>)
    requires l.list.Some? && i <= |l.list.value| && ListOk(l, frames) && Waiting(frames)
    ensures ListOk(RemoveFrom(l, id, i), frames) && RemoveFrom(l, id, i).list.Some?
    decreases |l.list.value| - i
  {
    var k := IndexFrom(l.list.value, id, i);
    if k < |l.list.value| {
      RemoveKeeps(RemoveAt(l, k), id, k, frames);
    }
  }

  /** A method's result can be stored: it is a good list, or is ready to be fired. */
  ghost predicate ResultOk(result: (CallbackList, Option<Data>), frames: seq<Frame>) {
    if result.1.Some? && result.0.list.Some? then |frames| == 0 && !result.0.firing else ListOk(result.0, frames)
  }

  lemma ResultKeeps(l: CallbackList, op: Op, frames: seq<Frame>)
    requires !op.Settle? && ListOk(l, frames) && Waiting(frames)
    ensures ResultOk(Result(l, op), frames)
  {
    if op.Remove? && l.list.Some? {
      RemoveKeeps(l, op.id, 0, frames);
    }
  }

  lemma EndFireKeeps(l: CallbackList)
    requires l.firingStart == 0
    ensures ResultOk(EndFire(l), [])
  {}

  lemma {:induction false} NoTestsWaiting(control: seq<Frame>, t: nat)
    requires forall i :: 0 <= i < |control| ==> !control[i].Test?
    ensures Waiting(Frames(control, t))
  {
    if |control| > 0 {
      NoTestsWaiting(control[..|control| - 1], t);
    }
  }

  ghost predicate NoTests(control: seq<Frame>) {
    forall i :: 0 <= i < |control| ==> !control[i].Test?
  }

  lemma StoreFires(m: Machine, t: nat, l: CallbackList, data: Data)
    requires t < |m.lists| && NoTests(m.control) && Frames(m.control, t) == [] && l.list.Some? && !l.firing
    requires forall u :: 0 <= u < |m.lists| && u != t ==> ListOk(m.lists[u], Frames(m.control, u))
    ensures Inv(Store(m, t, (l, Some(data))))
  {
    var r, f := Store(m, t, (l, Some(data))), Test(t, data);
    forall u | 0 <= u < |r.lists| ensures ListOk(r.lists[u], Frames(r.control, u)) {
      FramesPush(m.control, f, u);
      if u == t {
        assert Frames(r.control, u) == [f];
      } else {
        assert Frames(r.control, u) == Frames(m.control, u) && ListOk(m.lists[u], Frames(m.control, u));
      }
    }
  }

  /** Storing a result keeps the invariant. */
  lemma StoreKeeps(m: Machine, t: nat, result: (CallbackList, Option<Data>))
    requires t < |m.lists| && NoTests(m.control) && ResultOk(result, Frames(m.control, t))
    requires forall u :: 0 <= u < |m.lists| && u != t ==> ListOk(m.lists[u], Frames(m.control, u))
    ensures Inv(Store(m, t, result))
  {
    var r := Store(m, t, result);
    if result.1.Some? && result.0.list.Some? {
      StoreFires(m, t, result.0, result.1.value);
    } else {
      forall u | 0 <= u < |r.lists| ensures ListOk(r.lists[u], Frames(r.control, u)) {}
    }
  }

  /** A step taken when a body is innermost. */
  lemma BodyStepKeeps(m: Machine)
    requires Inv(m) && |m.control| > 0 && m.control[|m.control| - 1].Body?
    ensures Inv(Step(m))
  {
    var n := |m.control| - 1;
    var ops := m.control[n].ops;
    if |ops| > 0 {
      var control := m.control[..n] + [Body(ops[1..])];
      var before := m.(control := control, log := m.log + [Did(ops[0])]);
      forall t: nat ensures Frames(control, t) == Frames(m.control, t) && Waiting(Frames(control, t)) {
        FramesPush(m.control[..n], Body(ops[1..]), t);
        NoTestsWaiting(control, t);
      }
      if !ops[0].Settle? && ops[0].target < |m.lists| {
        ResultKeeps(m.lists[ops[0].target], ops[0], Frames(control, ops[0].target));
        StoreKeeps(before, ops[0].target, Result(m.lists[ops[0].target], ops[0]));
      }
    }
  }

  lemma LeaveKeeps(m: Machine, t: nat, l: CallbackList)
    requires Inv(m) && |m.control| > 0 && t < |m.lists| && IsFor(m.control[|m.control| - 1], t)
    requires l.firingStart == 0
    ensures Inv(Leave(m.(control := m.control[..|m.control| - 1]), t, l))
  {
    var n := |m.control| - 1;
    EndFireKeeps(l);
    assert ListOk(m.lists[t], Frames(m.control, t));
    assert Frames(m.control[..n], t) == [];
    forall u | 0 <= u < |m.lists| && u != t ensures ListOk(m.lists[u], Frames(m.control[..n], u)) {
      assert Frames(m.control, u) == Frames(m.control[..n], u);
    }
    StoreKeeps(m.(control := m.control[..n], log := m.log + [Ended(t)]), t, EndFire(l));
  }

  /** No loop ever reads past a list, and so nothing is thrown. */
  lemma NothingThrown(m: Machine, t: nat, data: Data)
    requires Inv(m) && |m.control| > 0 && m.control[|m.control| - 1] == Test(t, data) && t < |m.lists|
    ensures var l := m.lists[t];
      l.list.Some? && l.firingIndex < l.firingLength ==> 0 <= l.firingIndex < |l.list.value|
  {
    assert ListOk(m.lists[t], Frames(m.control, t));
  }

  /** What calling a callback does to the stack of calls and the history. */
  lemma CallStep(m: Machine, u: nat, data: Data)
    requires Inv(m) && |m.control| > 0 && m.control[|m.control| - 1] == Test(u, data) && u < |m.lists|
    requires m.lists[u].list.Some? && m.lists[u].firingIndex < m.lists[u].firingLength
    ensures var n, l := |m.control| - 1, m.lists[u];
      && 0 <= l.firingIndex < |l.list.value|
      && var cb := l.list.value[l.firingIndex];
      && Step(m).lists == m.lists && Step(m).log == m.log + [Called(u, cb, data)]
      && forall t: nat :: Frames(Step(m).control, t) ==
           Frames(m.control[..n], t) + if u == t then [Returned(u, data, cb.returnsFalse)] else []
  {
    var n, l, r := |m.control| - 1, m.lists[u], Step(m);
    NothingThrown(m, u, data);
    var cb := l.list.value[l.firingIndex];
    var f := Returned(u, data, cb.returnsFalse);
    assert r.control == m.control[..n] + [f] + [Body(cb.body)];
    forall t: nat ensures Frames(r.control, t) == Frames(m.control[..n], t) + if u == t then [f] else [] {
      FramesPush(m.control[..n], f, t);
      FramesPush(m.control[..n] + [f], Body(cb.body), t);
    }
  }

  lemma TestStepKeeps(m: Machine, t: nat, data: Data)
    requires Inv(m) && |m.control| > 0 && m.control[|m.control| - 1] == Test(t, data)
    ensures Inv(Step(m))
  {
    var n := |m.control| - 1;
    if t < |m.lists| {
      var l := m.lists[t];
      NothingThrown(m, t, data);
      assert ListOk(l, Frames(m.control, t));
      if l.list.Some? && l.firingIndex < l.firingLength {
        var r := Step(m);
        CallStep(m, t, data);
        forall u | 0 <= u < |m.lists| ensures ListOk(r.lists[u], Frames(r.control, u)) {
          assert ListOk(m.lists[u], Frames(m.control, u));
        }
      } else {
        LeaveKeeps(m, t, l);
      }
    }
  }

  lemma ReturnStepKeeps(m: Machine, t: nat, data: Data, returnsFalse: bool)
    requires Inv(m) && |m.control| > 0 && m.control[|m.control| - 1] == Returned(t, data, returnsFalse)
    ensures Inv(Step(m))
  {
    var n := |m.control| - 1;
    if t < |m.lists| {
      var l := m.lists[t];
      assert ListOk(l, Frames(m.control, t));
      if returnsFalse && l.options.stopOnFalse {
        LeaveKeeps(m, t, l.(memory := None));
      } else {
        var r := Step(m);
        forall u | 0 <= u < |m.lists| ensures ListOk(r.lists[u], Frames(r.control, u)) {
          FramesPush(m.control[..n], Test(t, data), u);
          assert ListOk(m.lists[u], Frames(m.control, u));
        }
      }
    }
  }

  /** Every step keeps the invariant. */
  lemma StepKeeps(m: Machine)
    requires Inv(m)
    ensures Inv(Step(m))
  {
    if |m.control| > 0 {
      match m.control[|m.control| - 1]
      case Body(_) => BodyStepKeeps(m);
      case Test(t, data) => TestStepKeeps(m, t, data);
      case Returned(t, data, returnsFalse) => ReturnStepKeeps(m, t, data, returnsFalse);
    }
  }

  lemma StartHolds(options: seq<Options>, program: seq<Op>)
    ensures Inv(Start(options, program))
  {
    var m := Start(options, program);
    forall t | 0 <= t < |m.lists| ensures ListOk(m.lists[t], Frames(m.control, t)) {
      FramesPush([], Body(program), t);
      assert [] + [Body(program)] == [Body(program)];
    }
  }

  /** In every run of every program. */
  lemma {:induction false} RunKeeps(options: seq<Options>, program: seq<Op>, steps: nat)
    ensures Inv(Run(Start(options, program), steps))
  {
    if steps == 0 {
      StartHolds(options, program);
    } else {
      RunKeeps(options, program, steps - 1);
      StepKeeps(Run(Start(options, program), steps - 1));
    }
  }
}
