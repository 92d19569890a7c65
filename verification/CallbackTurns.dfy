/** Lists with any options, fired any number of times: which callbacks each firing calls, with what, and in
    which order firings follow one another. */
module CallbackTurns {
  import opened CallbackLists
  import opened CallbackQueues

  /** What the history of a list makes of it.  passed are the callbacks the firing has passed, and skip how many
      places beyond the end of the list; due are those it has still to call, or the whole list while it is not
      fired; current is the firing's data; stops tells whether the callback that runs ends it; started are the
      data of all firings that fire has started so far. */
  datatype Turn = Turn(passed: seq<Callback>, skip: nat, due: seq<Callback>, current: Option<Data>, stops: bool,
                       memory: Option<Data>, stack: Option<seq<Data>>, fired: bool, live: bool, started: seq<Data>)

  function NewTurn(o: Options): Turn {
    Turn([], 0, [], None, false, None, if o.once then None else Some([]), false, true, [])
  }

  /** The callbacks of more that are pushed to a list. */
  function Fresh(cbs: seq<Callback>, more: seq<Callback>, unique: bool): seq<Callback>
    decreases |more|
  {
    if |more| == 0 then []
    else if unique && Has(cbs, more[0].id) then Fresh(cbs, more[1..], unique)
    else [more[0]] + Fresh(cbs + [more[0]], more[1..], unique)
  }

  /** fire starts a firing of the whole list. */
  function Begun(q: Turn, o: Options, data: Data): Turn {
    q.(current := Some(data), memory := if o.memory then Some(data) else None, fired := true,
       started := q.started + [data])
  }

  function Least(m: nat, n: nat): nat {
    if m < n then m else n
  }

  /** Callbacks are added: behind those due, or to places passed; or, to a list that remembers, they are all
      that a new firing calls. */
  function Added(q: Turn, o: Options, cbs: seq<Callback>): Turn {
    var list := q.passed + q.due;
    var more := Fresh(list, cbs, o.unique);
    if q.current.Some? then
      var k := Least(q.skip, |more|);
      q.(passed := q.passed + more[..k], skip := q.skip - k, due := q.due + more[k..])
    else if q.memory.Some? then
      q.(passed := list, due := more, current := q.memory, memory := if o.memory then q.memory else None, fired := true)
    else q.(due := q.due + more)
  }

  function Emptied(q: Turn): Turn {
    q.(passed := [], skip := if q.current.Some? then |q.passed| + q.skip else 0, due := [])
  }

  function Gone(q: Turn): Turn {
    Emptied(q).(memory := None, stack := None, live := false)
  }

  function Asked(q: Turn, o: Options, data: Data): Turn {
    if !q.live || (q.fired && q.stack.None?) then q
    else if q.current.Some? && q.stack.Some? then q.(stack := Some(q.stack.value + [data]))
    else Begun(q, o, data)
  }

  function TurnOp(q: Turn, o: Options, op: Op, t: nat): Turn {
    if op.Settle? || op.target != t then q
    else
      match op
      case Add(_, cbs) => if q.live then Added(q, o, cbs) else q
      case Remove(_, id) => q.(passed := Without(q.passed, id), due := Without(q.due, id))
      case Empty(_) => Emptied(q).(live := true)
      case Disable(_) => Gone(q)
      case Lock(_) => if q.memory.None? then Gone(q) else q.(stack := None)
      case Fire(_, data) => Asked(q, o, data)
  }

  /** The firing is over: the list waits for the next one, or is emptied or disabled if there will be none. */
  function Over(q: Turn, o: Options): Turn {
    var memory := if q.stops then None else q.memory;
    var idle := q.(passed := [], skip := 0, due := q.passed + q.due, current := None, stops := false, memory := memory);
    if !q.live then idle
    else if q.stack.Some? then
      if |q.stack.value| > 0 then Begun(idle.(stack := Some(q.stack.value[1..])), o, q.stack.value[0]) else idle
    else if memory.Some? then idle.(due := [])
    else idle.(due := [], live := false)
  }

  /** After one event; None where a callback is called that is not next, or with other data than the firing's, or
      where a firing ends too early. */
  function NextTurn(q: Turn, o: Options, e: Event, t: nat): Option<Turn> {
    match e
    case Did(op) => Some(TurnOp(q, o, op, t))
    case Called(u, cb, data) =>
      if u != t then Some(q)
      else if !q.stops && |q.due| > 0 && cb == q.due[0] && q.current == Some(data) then
        Some(q.(passed := q.passed + [cb], due := q.due[1..], stops := cb.returnsFalse && o.stopOnFalse))
      else None
    case Ended(u) =>
      if u != t then Some(q)
      else if q.current.Some? && (q.stops || |q.due| == 0) then Some(Over(q, o))
      else None
  }

  function Turns(log: seq<Event>, o: Options, t: nat): Option<Turn> {
    if |log| == 0 then Some(NewTurn(o))
    else
      var before := Turns(log[..|log| - 1], o, t);
      if before.None? then None else NextTurn(before.value, o, log[|log| - 1], t)
  }

  // ---------------------------------------------------------------------------
  // Which turn a list is at

  ghost predicate FrameStands(l: CallbackList, q: Turn, f: Frame)
    requires f.Test? || f.Returned?
  {
    && q.current == Some(f.data) && Places(l, f) == |q.passed| + q.skip
    && q.stops == (f.Returned? && f.returnsFalse && l.options.stopOnFalse)
  }

  ghost predicate AtTurn(l: CallbackList, q: Turn, frames: seq<Frame>)
    requires forall i :: 0 <= i < |frames| ==> frames[i].Test? || frames[i].Returned?
  {
    && ListOk(l, frames) && l.stack == q.stack && l.memory == q.memory && l.fired == q.fired
    && (l.options.once ==> l.stack.None?) && (l.memory.Some? ==> l.options.memory && l.fired)
    && (l.firing <==> q.current.Some?)
    && (if q.live then l.list == Some(q.passed + q.due) else l.list.None? && q.passed == q.due == [])
    && (q.skip > 0 ==> q.due == [])
    && if l.firing then FrameStands(l, q, frames[0]) else q.passed == [] && q.skip == 0 && !q.stops
  }

  lemma {:induction false} PushedFresh(cbs: seq<Callback>, more: seq<Callback>, unique: bool)
    ensures Pushed(cbs, more, unique) == cbs + Fresh(cbs, more, unique)
    decreases |more|
  {
    if |more| == 0 {
      assert cbs + [] == cbs;
    } else if unique && Has(cbs, more[0].id) {
      PushedFresh(cbs, more[1..], unique);
    } else {
      var rest := Fresh(cbs + [more[0]], more[1..], unique);
      PushedFresh(cbs + [more[0]], more[1..], unique);
      assert cbs + [more[0]] + rest == cbs + ([more[0]] + rest);
    }
  }

  // ---------------------------------------------------------------------------
  // Operations

  lemma SplitAdded(q: Turn, more: seq<Callback>)
    requires q.skip > 0 ==> q.due == []
    ensures var k := Least(q.skip, |more|);
      && (q.passed + more[..k]) + (q.due + more[k..]) == (q.passed + q.due) + more
      && |q.passed + more[..k]| + (q.skip - k) == |q.passed| + q.skip
      && (q.skip - k > 0 ==> q.due + more[k..] == [])
  {
    var k := Least(q.skip, |more|);
    assert more == more[..k] + more[k..];
  }

  lemma AddFiring(l: CallbackList, q: Turn, cbs: seq<Callback>, frames: seq<Frame>)
    requires Waiting(frames) && AtTurn(l, q, frames) && q.live && l.firing
    ensures AddTo(l, cbs).1.None? && AtTurn(AddTo(l, cbs).0, Added(q, l.options, cbs), frames)
  {
    var more := Fresh(l.list.value, cbs, l.options.unique);
    PushedFresh(l.list.value, cbs, l.options.unique);
    SplitAdded(q, more);
  }

  lemma AddIdle(l: CallbackList, q: Turn, cbs: seq<Callback>, t: nat)
    requires AtTurn(l, q, []) && q.live && !l.firing
    ensures var r := AddTo(l, cbs);
      AtTurn(Stored(r), Added(q, l.options, cbs), FramesStored(r, [], t))
  {
    PushedFresh(l.list.value, cbs, l.options.unique);
    var none: seq<Callback> := [];
    assert none + q.due == q.due && l.list.value == q.due;
    var more := Fresh(q.due, cbs, l.options.unique);
    assert none + (q.due + more) == q.due + more;
    if l.memory.Some? {
      assert [] + [Test(t, l.memory.value)] == [Test(t, l.memory.value)];
    }
  }

  lemma AddTurn(l: CallbackList, q: Turn, cbs: seq<Callback>, t: nat, frames: seq<Frame>)
    requires Waiting(frames) && AtTurn(l, q, frames)
    ensures var r := AddTo(l, cbs);
      AtTurn(Stored(r), if q.live then Added(q, l.options, cbs) else q, FramesStored(r, frames, t))
  {
    if q.live {
      if l.firing {
        AddFiring(l, q, cbs, frames);
      } else {
        AddIdle(l, q, cbs, t);
      }
    }
  }

  lemma RemoveTurn(l: CallbackList, q: Turn, id: nat, frames: seq<Frame>)
    requires Waiting(frames) && AtTurn(l, q, frames) && l.list.Some?
    ensures AtTurn(RemoveFrom(l, id, 0), q.(passed := Without(q.passed, id), due := Without(q.due, id)), frames)
  {
    var r := RemoveFrom(l, id, 0);
    RemoveIsWithout(l, id, 0);
    RemoveKeeps(l, id, 0, frames);
    assert ListOk(r, frames);
    WithoutConcat(q.passed, q.due, id);
    if l.firing {
      assert Passed(l) == q.passed;
    }
  }

  lemma FireTurn(l: CallbackList, q: Turn, data: Data, t: nat, frames: seq<Frame>)
    requires Waiting(frames) && AtTurn(l, q, frames)
    ensures var r := FireWith(l, data);
      AtTurn(Stored(r), Asked(q, l.options, data), FramesStored(r, frames, t))
  {
    if l.list.Some? && !(l.fired && l.stack.None?) && !l.firing {
      assert frames + [Test(t, data)] == [Test(t, data)];
    }
  }

  lemma ClearTurn(l: CallbackList, q: Turn, op: Op, t: nat, frames: seq<Frame>)
    requires Waiting(frames) && AtTurn(l, q, frames) && (op.Empty? || op.Disable? || op.Lock?) && op.target == t
    ensures AtTurn(Stored(Result(l, op)), TurnOp(q, l.options, op, t), FramesStored(Result(l, op), frames, t))
  {
    var none: seq<Callback> := [];
    assert none + none == none;
  }

  lemma OpTurn(l: CallbackList, q: Turn, op: Op, t: nat, frames: seq<Frame>)
    requires Waiting(frames) && AtTurn(l, q, frames) && !op.Settle? && op.target == t
    ensures AtTurn(Stored(Result(l, op)), TurnOp(q, l.options, op, t), FramesStored(Result(l, op), frames, t))
  {
    match op
    case Add(_, cbs) => AddTurn(l, q, cbs, t, frames);
    case Fire(_, data) => FireTurn(l, q, data, t, frames);
    case Remove(_, id) =>
      if l.list.Some? {
        RemoveTurn(l, q, id, frames);
      }
    case _ => ClearTurn(l, q, op, t, frames);
  }

  /** The callback that is called is the next one due. */
  lemma CallTurn(l: CallbackList, q: Turn, t: nat, data: Data)
    requires AtTurn(l, q, [Test(t, data)])
    requires l.list.Some? && 0 <= l.firingIndex < l.firingLength && l.firingIndex < |l.list.value|
    ensures var cb := l.list.value[l.firingIndex];
      && !q.stops && |q.due| > 0 && cb == q.due[0] && q.current == Some(data)
      && AtTurn(l, q.(passed := q.passed + [cb], due := q.due[1..], stops := cb.returnsFalse && l.options.stopOnFalse),
                [Returned(t, data, cb.returnsFalse)])
  {
    var cb := l.list.value[l.firingIndex];
    assert |q.passed| + q.skip < |q.passed + q.due|;
    assert q.passed + q.due == (q.passed + [cb]) + q.due[1..];
  }

  /** The end of a firing, by its loop or by a callback that stops it. */
  lemma EndTurn(l: CallbackList, q: Turn, t: nat, f: Frame)
    requires (f.Test? || f.Returned?) && AtTurn(l, q, [f])
    requires f.Test? ==> !(l.list.Some? && l.firingIndex < l.firingLength)
    requires f.Returned? ==> f.returnsFalse && l.options.stopOnFalse
    ensures var end := EndFire(if f.Test? then l else l.(memory := None));
      && q.current.Some? && (q.stops || |q.due| == 0)
      && AtTurn(Stored(end), Over(q, l.options), FramesStored(end, [], t))
  {
    var none: seq<Callback> := [];
    assert none + (q.passed + q.due) == q.passed + q.due && none + none == none;
    var end := EndFire(if f.Test? then l else l.(memory := None));
    if end.1.Some? && end.0.list.Some? {
      assert [] + [Test(t, end.1.value)] == [Test(t, end.1.value)];
    }
  }

  // ---------------------------------------------------------------------------
  // The machine, turn by turn

  /** List t of the machine is at the turn its history describes. */
  ghost predicate TakesTurns(m: Machine, t: nat)
    requires t < |m.lists|
  {
    FramesAreFirings(m.control, t);
    var q := Turns(m.log, m.lists[t].options, t);
    q.Some? && AtTurn(m.lists[t], q.value, Frames(m.control, t))
  }

  lemma TurnsOne(log: seq<Event>, o: Options, e: Event, t: nat)
    requires Turns(log, o, t).Some?
    ensures Turns(log + [e], o, t) == NextTurn(Turns(log, o, t).value, o, e, t)
  {
    assert (log + [e])[..|log|] == log;
  }

  lemma {:induction false} RemoveOptions(l: CallbackList, id: nat, i: nat)
    requires l.list.Some? && i <= |l.list.value|
    ensures RemoveFrom(l, id, i).options == l.options
    decreases |l.list.value| - i
  {
    var k := IndexFrom(l.list.value, id, i);
    if k < |l.list.value| {
      RemoveOptions(RemoveAt(l, k), id, k);
    }
  }

  /** No operation changes the options of a list. */
  lemma ResultOptions(l: CallbackList, op: Op)
    requires !op.Settle?
    ensures Stored(Result(l, op)).options == l.options
  {
    if op.Remove? && l.list.Some? {
      RemoveOptions(l, op.id, 0);
    }
  }

  lemma BodyTurn(m: Machine, t: nat)
    requires Inv(m) && t < |m.lists| && TakesTurns(m, t) && |m.control| > 0 && m.control[|m.control| - 1].Body?
    ensures TakesTurns(Step(m), t) && Step(m).lists[t].options == m.lists[t].options
  {
    var ops := m.control[|m.control| - 1].ops;
    if |ops| > 0 {
      var op := ops[0];
      assert ops == [op] + ops[1..];
      BodyStep(m, op, ops[1..], t);
      TurnsOne(m.log, m.lists[t].options, Did(op), t);
      if !op.Settle? && op.target == t {
        OpTurn(m.lists[t], Turns(m.log, m.lists[t].options, t).value, op, t, Frames(m.control, t));
        ResultOptions(m.lists[t], op);
      }
    }
  }

  lemma CallsTurn(m: Machine, t: nat, u: nat, data: Data)
    requires Inv(m) && t < |m.lists| && TakesTurns(m, t)
    requires |m.control| > 0 && m.control[|m.control| - 1] == Test(u, data) && u < |m.lists|
    requires m.lists[u].list.Some? && m.lists[u].firingIndex < m.lists[u].firingLength
    ensures TakesTurns(Step(m), t) && Step(m).lists[t].options == m.lists[t].options
  {
    var l, n := m.lists[u], |m.control| - 1;
    CallStep(m, u, data);
    var cb := l.list.value[l.firingIndex];
    TurnsOne(m.log, m.lists[t].options, Called(u, cb, data), t);
    if u == t {
      assert ListOk(l, Frames(m.control, t));
      assert Frames(m.control, t) == [Test(t, data)] && Frames(m.control[..n], t) == [];
      assert Frames(Step(m).control, t) == [Returned(u, data, cb.returnsFalse)];
      CallTurn(l, Turns(m.log, l.options, t).value, t, data);
    } else {
      assert Frames(Step(m).control, t) == Frames(m.control, t);
    }
  }

  /** The frames after leaving the loop of list u. */
  lemma LeaveFrames(m: Machine, u: nat, l: CallbackList, t: nat)
    requires |m.control| > 0 && u < |m.lists| && t < |m.lists|
    ensures var n, end := |m.control| - 1, EndFire(l);
      var r := Leave(m.(control := m.control[..n]), u, l);
      && r.log == m.log + [Ended(u)] && r.lists[t] == (if u == t then Stored(end) else m.lists[t])
      && Frames(r.control, t)
         == if u == t then FramesStored(end, Frames(m.control[..n], t), t) else Frames(m.control[..n], t)
  {
    var n, end := |m.control| - 1, EndFire(l);
    if end.1.Some? && end.0.list.Some? {
      FramesPush(m.control[..n], Test(u, end.1.value), t);
    }
  }

  /** Leaving the loop of list t. */
  lemma LeavesOwn(m: Machine, t: nat, f: Frame, l: CallbackList)
    requires Inv(m) && t < |m.lists| && TakesTurns(m, t)
    requires |m.control| > 0 && m.control[|m.control| - 1] == f && IsFor(f, t)
    requires l == (if f.Test? then m.lists[t] else m.lists[t].(memory := None))
    requires f.Test? ==> !(l.list.Some? && l.firingIndex < l.firingLength)
    requires f.Returned? ==> f.returnsFalse && l.options.stopOnFalse
    ensures var n, q, end := |m.control| - 1, Turns(m.log, m.lists[t].options, t).value, EndFire(l);
      && Frames(m.control[..n], t) == [] && q.current.Some? && (q.stops || |q.due| == 0)
      && AtTurn(Stored(end), Over(q, m.lists[t].options), FramesStored(end, [], t))
  {
    assert ListOk(m.lists[t], Frames(m.control, t));
    assert Frames(m.control, t) == [f] && Frames(m.control[..|m.control| - 1], t) == [];
    EndTurn(m.lists[t], Turns(m.log, m.lists[t].options, t).value, t, f);
  }

  lemma LeavesTurn(m: Machine, t: nat, u: nat, f: Frame, l: CallbackList)
    requires Inv(m) && t < |m.lists| && TakesTurns(m, t)
    requires |m.control| > 0 && m.control[|m.control| - 1] == f && IsFor(f, u) && u < |m.lists|
    requires l == (if f.Test? then m.lists[u] else m.lists[u].(memory := None))
    requires f.Test? ==> !(l.list.Some? && l.firingIndex < l.firingLength)
    requires f.Returned? ==> f.returnsFalse && l.options.stopOnFalse
    ensures var r := Leave(m.(control := m.control[..|m.control| - 1]), u, l);
      TakesTurns(r, t) && r.lists[t].options == m.lists[t].options
  {
    var n := |m.control| - 1;
    LeaveFrames(m, u, l, t);
    TurnsOne(m.log, m.lists[t].options, Ended(u), t);
    if u == t {
      LeavesOwn(m, t, f, l);
    } else {
      assert Frames(m.control, t) == Frames(m.control[..n], t);
    }
  }

  lemma GoesOnTurn(m: Machine, t: nat, f: Frame)
    requires Inv(m) && t < |m.lists| && TakesTurns(m, t)
    requires |m.control| > 0 && m.control[|m.control| - 1] == f && f.Returned? && f.target < |m.lists|
    requires !(f.returnsFalse && m.lists[f.target].options.stopOnFalse)
    ensures TakesTurns(Step(m), t) && Step(m).lists[t].options == m.lists[t].options
  {
    var n := |m.control| - 1;
    FramesPush(m.control[..n], Test(f.target, f.data), t);
    if f.target == t {
      assert ListOk(m.lists[t], Frames(m.control, t));
      assert Frames(m.control, t) == [f] && Frames(m.control[..n], t) == [];
    }
  }

  lemma StepTurn(m: Machine, t: nat)
    requires Inv(m) && t < |m.lists| && TakesTurns(m, t)
    ensures TakesTurns(Step(m), t) && Step(m).lists[t].options == m.lists[t].options
  {
    if |m.control| > 0 {
      var f := m.control[|m.control| - 1];
      if f.Body? {
        BodyTurn(m, t);
      } else if f.target < |m.lists| {
        var l := m.lists[f.target];
        if f.Returned? && !(f.returnsFalse && l.options.stopOnFalse) {
          GoesOnTurn(m, t, f);
        } else if f.Returned? {
          LeavesTurn(m, t, f.target, f, l.(memory := None));
        } else if l.list.Some? && l.firingIndex < l.firingLength {
          CallsTurn(m, t, f.target, f.data);
        } else {
          LeavesTurn(m, t, f.target, f, l);
        }
      }
    }
  }

  lemma {:induction false} StepsTurn(m: Machine, steps: nat, t: nat)
    requires Inv(m) && t < |m.lists| && TakesTurns(m, t)
    ensures var r := Run(m, steps);
      Inv(r) && t < |r.lists| && TakesTurns(r, t) && r.lists[t].options == m.lists[t].options
  {
    if steps > 0 {
      var before := Run(m, steps - 1);
      StepsTurn(m, steps - 1, t);
      StepKeeps(before);
      StepTurn(before, t);
    }
  }

  lemma NewTakesTurns(m: Machine, t: nat, o: Options, program: seq<Op>)
    requires Inv(m) && t < |m.lists| && m.lists[t] == NewList(o) && m.control == [Body(program)] && m.log == []
    ensures TakesTurns(m, t)
  {
    FramesPush([], Body(program), t);
    assert [] + [Body(program)] == [Body(program)];
  }

  /** In every run of every program, every list, whatever its options, is at the turn of its history: each call is
      of the callback due next in the firing that runs, with that firing's data; and a firing ends when nothing is
      due any more, or a callback stops it. */
  lemma RunTakesTurns(options: seq<Options>, program: seq<Op>, steps: nat, t: nat)
    requires t < |options|
    ensures var m := Run(Start(options, program), steps);
      t < |m.lists| && TakesTurns(m, t) && m.lists[t].options == options[t]
  {
    StartHolds(options, program);
    NewTakesTurns(Start(options, program), t, options[t], program);
    StepsTurn(Start(options, program), steps, t);
  }
}
