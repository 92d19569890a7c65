/** The callback list as the object the source builds, and programs on such objects: nested calls and
    loops, shown to come through the same steps as the machine of CallbackLists. */
module CallbackObject {
  import opened CallbackLists
  import opened CallbackQueues
  import opened CallbackFates
  import opened CallbackEnding

  class Callbacks {
    const options: Options
    var list: Option<seq<Callback>>
    var stack: Option<seq<Data>>
    var memory: Option<Data>
    var fired: bool
    var firing: bool
    var firingIndex: int
    var firingLength: int
    var firingStart: nat

    /** The list the variables make up. */
    ghost function View(): CallbackList
      reads this
    {
      CallbackList(options, list, stack, memory, fired, firing, firingIndex, firingLength, firingStart)
    }

    constructor (options: Options)
      ensures View() == NewList(options)
    {
      this.options := options;
      list, stack, memory := Some([]), if options.once then None else Some([]), None;
      fired, firing, firingIndex, firingLength, firingStart := false, false, 0, 0, 0;
    }

    /** Add callbacks, each at most once in a unique list; then the loop that runs is made longer, or
        a firing with the remembered data is asked for. */
    method Add(cbs: seq<Callback>) returns (fires: Option<Data>)
      modifies this`list, this`firingLength, this`firingStart
      ensures (View(), fires) == AddTo(old(View()), cbs)
    {
      fires := None;
      if list.Some? {
        var start := |list.value|;
        for i := 0 to |cbs|
          invariant list.Some? && firingLength == old(firingLength) && firingStart == old(firingStart)
          invariant Pushed(list.value, cbs[i..], options.unique) == Pushed(old(list.value), cbs, options.unique)
        {
          assert cbs[i..][1..] == cbs[i + 1..];
          if !options.unique || !Has(list.value, cbs[i].id) {
            list := Some(list.value + [cbs[i]]);
          }
        }
        if firing {
          firingLength := |list.value|;
        } else if memory.Some? {
          firingStart := start;
          fires := memory;
        }
      }
    }

    /** Index of the first callback with this id from place i on. */
    method Find(id: nat, i: nat) returns (k: nat)
      requires list.Some? && i <= |list.value|
      ensures k == IndexFrom(list.value, id, i)
    {
      k := i;
      while k < |list.value| && list.value[k].id != id
        invariant i <= k <= |list.value| && IndexFrom(list.value, id, i) == IndexFrom(list.value, id, k)
      {
        k := k + 1;
      }
    }

    /** Take out the callback at an index, keeping the firing indexes in step. */
    method Splice(index: nat)
      requires list.Some? && index < |list.value|
      modifies this`list, this`firingLength, this`firingIndex
      ensures View() == RemoveAt(old(View()), index)
    {
      list := Some(list.value[..index] + list.value[index + 1..]);
      if firing {
        if index <= firingLength {
          firingLength := firingLength - 1;
        }
        if index <= firingIndex {
          firingIndex := firingIndex - 1;
        }
      }
    }

    /** Remove every occurrence of a callback. */
    method Remove(id: nat)
      modifies this`list, this`firingLength, this`firingIndex
      ensures View() == if old(list).Some? then RemoveFrom(old(View()), id, 0) else old(View())
    {
      if list.Some? {
        ghost var before, at: nat := View(), 0;
        var index := Find(id, 0);
        while index < |list.value|
          invariant list.Some? && at <= |list.value| && index == IndexFrom(list.value, id, at)
          invariant RemoveFrom(View(), id, at) == RemoveFrom(before, id, 0)
          decreases |list.value|
        {
          Splice(index);
          at := index;
          index := Find(id, index);
        }
      }
    }

    method Empty()
      modifies this`list, this`firingLength
      ensures View() == old(View()).(list := Some([]), firingLength := 0)
    {
      list, firingLength := Some([]), 0;
    }

    method Disable()
      modifies this`list, this`stack, this`memory
      ensures View() == DisableIt(old(View()))
    {
      list, stack, memory := None, None, None;
    }

    method Lock()
      modifies this`list, this`stack, this`memory
      ensures View() == LockIt(old(View()))
    {
      stack := None;
      if memory.None? {
        Disable();
      }
    }

    /** Ask for a firing, or stack it while another one runs. */
    method FireWith(data: Data) returns (fires: Option<Data>)
      requires firing ==> fired
      modifies this`stack
      ensures (View(), fires) == CallbackLists.FireWith(old(View()), data)
    {
      fires := None;
      if list.Some? && (!fired || stack.Some?) {
        if firing {
          stack := Some(stack.value + [data]);
        } else {
          fires := Some(data);
        }
      }
    }

    /** What fire does before its loop. */
    method BeginFire(data: Data)
      requires list.Some?
      modifies this
      ensures View() == StartFire(old(View()), data)
    {
      memory := if options.memory then Some(data) else None;
      fired := true;
      firingIndex := firingStart;
      firingStart := 0;
      firingLength := |list.value|;
      firing := true;
    }

    /** What fire does behind its loop: ask for the firing that was stacked first, or empty or
        disable a list that is fired once. */
    method FinishFire() returns (fires: Option<Data>)
      modifies this
      ensures (View(), fires) == EndFire(old(View()))
    {
      fires := None;
      firing := false;
      if list.Some? {
        if stack.Some? {
          if |stack.value| > 0 {
            fires := Some(stack.value[0]);
            stack := Some(stack.value[1..]);
          }
        } else if memory.Some? {
          list := Some([]);
        } else {
          Disable();
        }
      }
    }
  }

  /** Lists, the state variables, and what has happened: the program as it runs, with nested calls
      where the machine has its stack. */
  class World {
    const lists: seq<Callbacks>
    var states: map<nat, nat>
    ghost var log: seq<Event>

    /** No list is there twice. */
    ghost predicate Valid() {
      forall i, j :: 0 <= i < j < |lists| ==> lists[i] != lists[j]
    }

    /** The machine is where the program is, except for list t. */
    ghost predicate ShowsBut(m: Machine, t: nat)
      reads this, lists
    {
      && |m.lists| == |lists| && m.states == states && m.log == log
      && forall i :: 0 <= i < |lists| && i != t ==> m.lists[i] == lists[i].View()
    }

    ghost predicate Shows(m: Machine)
      reads this, lists
    {
      ShowsBut(m, |lists|)
    }

    constructor (lists: seq<Callbacks>)
      requires forall i, j :: 0 <= i < j < |lists| ==> lists[i] != lists[j]
      ensures Valid() && this.lists == lists && states == map[] && log == []
    {
      this.lists := lists;
      states := map[];
      log := [];
    }

    /** The methods by name, up to where they start a firing. */
    method Call(op: Op) returns (fires: Option<Data>)
      requires Valid() && !op.Settle? && op.target < |lists|
      requires lists[op.target].firing ==> lists[op.target].fired
      modifies lists[op.target]
      ensures (lists[op.target].View(), fires) == Result(old(lists[op.target].View()), op)
    {
      var l := lists[op.target];
      fires := None;
      match op
      case Add(_, cbs) => fires := l.Add(cbs);
      case Remove(_, id) => l.Remove(id);
      case Empty(_) => l.Empty();
      case Disable(_) => l.Disable();
      case Lock(_) => l.Lock();
      case Fire(_, data) => fires := l.FireWith(data);
    }

    /** Run the loop of fire if a method asked for it.  A program that runs out of fuel gives up; then the
        machine makes more steps than there was fuel.  Otherwise it has come through the same steps. */
    method Ignite(t: nat, fires: Option<Data>, fuel: nat, ghost m: Machine, ghost lower: seq<Frame>)
      returns (ok: bool, ghost r: Machine)
      requires Valid() && t < |lists| && ShowsBut(m, t) && Inv(m) && m.lists[t] == Stored((lists[t].View(), fires))
      requires m.control == FramesAfter(lists[t].View(), fires, lower, t)
      modifies this, lists
      ensures if ok then Reaches(m, r) && Shows(r) && Inv(r) && r.control == lower else Lasts(m, fuel)
      decreases fuel, 3
    {
      ok, r := true, m;
      ReachesSelf(m);
      if fires.Some? && lists[t].list.Some? {
        lists[t].BeginFire(fires.value);
        ok, r := Fire(t, fires.value, fuel, m, lower);
      }
    }

    /** The loop of fire, and what comes behind it. */
    method Fire(t: nat, data: Data, fuel: nat, ghost m: Machine, ghost lower: seq<Frame>)
      returns (ok: bool, ghost r: Machine)
      requires Valid() && t < |lists| && Shows(m) && Inv(m) && m.control == lower + [Test(t, data)]
      modifies this, lists
      ensures if ok then Reaches(m, r) && Shows(r) && Inv(r) && r.control == lower else Lasts(m, fuel)
      decreases fuel, 2
    {
      ok, r := true, m;
      ReachesSelf(m);
      var left := fuel;
      while lists[t].list.Some? && lists[t].firingIndex < lists[t].firingLength
        invariant Valid() && Shows(r) && Inv(r) && r.control == lower + [Test(t, data)]
        invariant 0 <= left <= fuel && ReachesIn(m, r, fuel - left)
        decreases left
      {
        if left == 0 {
          LastsUntil(m, r, fuel);
          ok := false;
          return;
        }
        left := left - 1;
        ghost var before := r;
        var stop;
        ok, stop, r := Round(t, data, fuel, m, before, lower, fuel - left - 1);
        if !ok {
          return;
        }
        if stop {
          before := r;
          ok, r := StopLoop(t, data, fuel, m, before, lower);
          return;
        }
      }
      ghost var last := r;
      LeftIs(last, t, data, lower);
      ok, r := Finish(t, fuel, last, lower);
      Continues(m, last, r, ok, fuel);
    }

    /** One round of the loop, after some rounds. */
    method Round(t: nat, data: Data, fuel: nat, ghost m: Machine, ghost before: Machine, ghost lower: seq<Frame>,
                 ghost rounds: nat)
      returns (ok: bool, stop: bool, ghost r: Machine)
      requires Valid() && t < |lists| && fuel > 0 && ReachesIn(m, before, rounds)
      requires Shows(before) && Inv(before) && before.control == lower + [Test(t, data)]
      requires lists[t].list.Some? && lists[t].firingIndex < lists[t].firingLength
      modifies this, lists
      ensures if ok then ReachesIn(m, r, rounds + 1) && Shows(r) && Inv(r) else Lasts(m, fuel)
      ensures ok ==> r.control == lower + [if stop then Returned(t, data, true) else Test(t, data)]
      ensures ok && stop ==> lists[t].options.stopOnFalse
      decreases fuel, 0
    {
      ok, stop, r := CallNext(t, data, fuel - 1, before, lower);
      if ok {
        ReachesMore(m, before, r, rounds, 1);
      } else {
        LastsFrom(m, before, fuel);
      }
    }

    /** A callback returned false, and the list stops there. */
    method StopLoop(t: nat, data: Data, fuel: nat, ghost m: Machine, ghost before: Machine, ghost lower: seq<Frame>)
      returns (ok: bool, ghost r: Machine)
      requires Valid() && t < |lists| && Reaches(m, before) && lists[t].options.stopOnFalse
      requires Shows(before) && Inv(before) && before.control == lower + [Returned(t, data, true)]
      modifies this, lists
      ensures if ok then Reaches(m, r) && Shows(r) && Inv(r) && r.control == lower else Lasts(m, fuel)
      decreases fuel, 1
    {
      ReturnedIs(before, t, data, true, lower);
      lists[t].memory := None;
      ok, r := Finish(t, fuel, before, lower);
      Continues(m, before, r, ok, fuel);
    }

    /** One round of the loop: call the callback, and tell whether the loop is to stop. */
    method CallNext(t: nat, data: Data, fuel: nat, ghost m: Machine, ghost lower: seq<Frame>)
      returns (ok: bool, stop: bool, ghost r: Machine)
      requires Valid() && t < |lists| && Shows(m) && Inv(m) && m.control == lower + [Test(t, data)]
      requires lists[t].list.Some? && lists[t].firingIndex < lists[t].firingLength
      modifies this, lists
      ensures if ok then ReachesIn(m, r, 1) && Shows(r) && Inv(r) else Lasts(m, fuel + 1)
      ensures ok ==> r.control == lower + [if stop then Returned(t, data, true) else Test(t, data)]
      ensures ok && stop ==> lists[t].options.stopOnFalse
      decreases fuel, 6
    {
      NothingThrown(m, t, data);
      var cb := lists[t].list.value[lists[t].firingIndex];
      ghost var f := Returned(t, data, cb.returnsFalse);
      ghost var called := Step(m);
      log := log + [Called(t, cb, data)];
      StepKeeps(m);
      CalledIs(m, t, data, lower);
      ok, r := RunBody(cb.body, fuel, called, lower + [f]);
      ContinuesNext(m, called, r, ok, fuel);
      stop := cb.returnsFalse && lists[t].options.stopOnFalse;
      if ok && !stop {
        ghost var before := r;
        r := MoveOn(t, data, cb.returnsFalse, before, lower);
        ReachesSelf(before);
        ReachesNext(before, before);
        ReachesMore(m, before, r, 1, 0);
      }
    }

    /** The loop goes on to the next index. */
    method MoveOn(t: nat, data: Data, returnsFalse: bool, ghost m: Machine, ghost lower: seq<Frame>)
      returns (ghost r: Machine)
      requires Valid() && t < |lists| && Shows(m) && Inv(m) && m.control == lower + [Returned(t, data, returnsFalse)]
      requires !(returnsFalse && lists[t].options.stopOnFalse)
      modifies lists[t]
      ensures r == Step(m) && Shows(r) && Inv(r) && r.control == lower + [Test(t, data)]
    {
      lists[t].firingIndex := lists[t].firingIndex + 1;
      StepKeeps(m);
      ReturnedIs(m, t, data, returnsFalse, lower);
      r := Step(m);
    }

    /** Behind the loop. */
    method Finish(t: nat, fuel: nat, ghost m: Machine, ghost lower: seq<Frame>)
      returns (ok: bool, ghost r: Machine)
      requires Valid() && t < |lists| && ShowsBut(m, t) && Inv(m)
      requires |m.control| > 0 && Step(m) == Leave(m.(control := lower), t, lists[t].View())
      modifies this, lists
      ensures if ok then Reaches(m, r) && Shows(r) && Inv(r) && r.control == lower else Lasts(m, fuel)
      decreases fuel, 0
    {
      if fuel == 0 {
        ok, r := false, m;
        assert Run(m, 0) == m;
        return;
      }
      ghost var next := Step(m);
      StepKeeps(m);
      var fires := lists[t].FinishFire();
      log := log + [Ended(t)];
      ok, r := Ignite(t, fires, fuel - 1, next, lower);
      ContinuesNext(m, next, r, ok, fuel - 1);
    }

    /** An operation of a body, with everything it sets off. */
    method PerformOp(op: Op, fuel: nat, ghost m: Machine, ghost lower: seq<Frame>, ghost rest: seq<Op>)
      returns (ok: bool, ghost r: Machine)
      requires Valid() && Shows(m) && Inv(m) && m.control == lower + [Body([op] + rest)]
      modifies this, lists
      ensures if ok then Reaches(m, r) && Shows(r) && Inv(r) && r.control == lower + [Body(rest)] else Lasts(m, fuel)
      decreases fuel, 4
    {
      ghost var next := Step(m);
      StepKeeps(m);
      PerformedIs(m, op, rest, lower);
      log := log + [Did(op)];
      ok, r := true, next;
      ReachesSelf(next);
      if op.Settle? {
        states := states[op.deferred := op.final];
      } else if op.target < |lists| {
        assert ListOk(m.lists[op.target], Frames(m.control, op.target));
        var fires := Call(op);
        ok, r := Ignite(op.target, fires, fuel, next, lower + [Body(rest)]);
      }
      ContinuesNext(m, next, r, ok, fuel);
    }

    /** The body of a callback, or a program. */
    method RunBody(ops: seq<Op>, fuel: nat, ghost m: Machine, ghost lower: seq<Frame>)
      returns (ok: bool, ghost r: Machine)
      requires Valid() && Shows(m) && Inv(m) && m.control == lower + [Body(ops)]
      modifies this, lists
      ensures if ok then Reaches(m, r) && Shows(r) && Inv(r) && r.control == lower else Lasts(m, fuel)
      decreases fuel, 5
    {
      ok, r := true, m;
      ReachesSelf(m);
      assert ops[0..] == ops;
      for i := 0 to |ops|
        invariant Valid() && Shows(r) && Inv(r) && Reaches(m, r) && r.control == lower + [Body(ops[i..])]
      {
        ghost var before := r;
        assert ops[i..] == [ops[i]] + ops[i + 1..];
        ok, r := PerformOp(ops[i], fuel, before, lower, ops[i + 1..]);
        Continues(m, before, r, ok, fuel);
        if !ok {
          return;
        }
      }
      StepKeeps(r);
      BodyEnds(r, lower);
      ReachesNext(m, r);
      r := Step(r);
    }
  }

  ghost function FramesAfter(l: CallbackList, fires: Option<Data>, lower: seq<Frame>, t: nat): seq<Frame> {
    if fires.Some? && l.list.Some? then lower + [Test(t, fires.value)] else lower
  }

  /** At least so many steps lead from m to r. */
  ghost predicate ReachesIn(m: Machine, r: Machine, least: nat) {
    exists n: nat :: n >= least && Run(m, n) == r
  }

  lemma LastsUntil(m: Machine, r: Machine, least: nat)
    requires ReachesIn(m, r, least) && r.control != []
    ensures Lasts(m, least)
  {
    var n: nat :| n >= least && Run(m, n) == r;
    LastsBefore(m, least, n);
  }

  lemma LastsFrom(m: Machine, before: Machine, steps: nat)
    requires Reaches(m, before) && Lasts(before, steps)
    ensures Lasts(m, steps)
  {
    var n: nat :| Run(m, n) == before;
    LastsAfter(m, before, n, steps);
    LastsBefore(m, steps, n + steps);
  }

  lemma LastsAfter(m: Machine, before: Machine, n: nat, steps: nat)
    requires Run(m, n) == before && Lasts(before, steps)
    ensures Lasts(m, n + steps)
  {
    var _ := RunAdds(m, n, steps);
  }

  /** A program that goes on where the machine has come to. */
  lemma Continues(m: Machine, before: Machine, r: Machine, ok: bool, fuel: nat)
    requires Reaches(m, before) && if ok then Reaches(before, r) else Lasts(before, fuel)
    ensures if ok then Reaches(m, r) else Lasts(m, fuel)
  {
    if ok {
      ReachesFurther(m, before, r);
    } else {
      LastsFrom(m, before, fuel);
    }
  }

  lemma ReachesMore(m: Machine, before: Machine, r: Machine, i: nat, j: nat)
    requires ReachesIn(m, before, i) && ReachesIn(before, r, j)
    ensures ReachesIn(m, r, i + j)
  {
    var k: nat :| k >= i && Run(m, k) == before;
    var l: nat :| l >= j && Run(before, l) == r;
    var _ := RunAdds(m, k, l);
  }

  /** A program that goes on after one step of the machine. */
  lemma ContinuesNext(m: Machine, next: Machine, r: Machine, ok: bool, fuel: nat)
    requires next == Step(m) && if ok then Reaches(next, r) else Lasts(next, fuel)
    ensures if ok then ReachesIn(m, r, 1) else Lasts(m, fuel) && Lasts(m, fuel + 1)
  {
    assert Run(m, 0) == m && Run(m, 1) == next;
    var n := if ok then var k: nat :| Run(next, k) == r; k else fuel;
    var _ := RunAdds(m, 1, n);
    if !ok {
      LastsBefore(m, fuel, fuel + 1);
    }
  }

  /** The machine's steps on a stack of calls written as lower and what is innermost. */
  lemma CalledIs(m: Machine, t: nat, data: Data, lower: seq<Frame>)
    requires t < |m.lists| && m.control == lower + [Test(t, data)]
    requires var l := m.lists[t]; l.list.Some? && 0 <= l.firingIndex < l.firingLength && l.firingIndex < |l.list.value|
    ensures var cb := m.lists[t].list.value[m.lists[t].firingIndex];
      Step(m) == m.(control := lower + [Returned(t, data, cb.returnsFalse)] + [Body(cb.body)],
                    log := m.log + [Called(t, cb, data)])
  {
    assert m.control[..|lower|] == lower;
  }

  lemma ReturnedIs(m: Machine, t: nat, data: Data, returnsFalse: bool, lower: seq<Frame>)
    requires t < |m.lists| && m.control == lower + [Returned(t, data, returnsFalse)]
    ensures var l := m.lists[t];
      Step(m) == if returnsFalse && l.options.stopOnFalse then Leave(m.(control := lower), t, l.(memory := None))
                 else m.(lists := m.lists[t := l.(firingIndex := l.firingIndex + 1)],
                         control := lower + [Test(t, data)])
  {
    assert m.control[..|lower|] == lower;
  }

  lemma LeftIs(m: Machine, t: nat, data: Data, lower: seq<Frame>)
    requires t < |m.lists| && m.control == lower + [Test(t, data)]
    requires !(m.lists[t].list.Some? && m.lists[t].firingIndex < m.lists[t].firingLength)
    ensures Step(m) == Leave(m.(control := lower), t, m.lists[t])
  {
    assert m.control[..|lower|] == lower;
  }

  lemma PerformedIs(m: Machine, op: Op, rest: seq<Op>, lower: seq<Frame>)
    requires m.control == lower + [Body([op] + rest)]
    ensures Step(m) == Perform(m.(control := lower + [Body(rest)], log := m.log + [Did(op)]), op)
  {
    assert m.control[..|lower|] == lower && ([op] + rest)[1..] == rest;
  }

  lemma BodyEnds(m: Machine, lower: seq<Frame>)
    requires m.control == lower + [Body([])]
    ensures Step(m) == m.(control := lower)
  {
    assert m.control[..|lower|] == lower;
  }

  // ---------------------------------------------------------------------------
  // Whole programs

  method NewLists(options: seq<Options>) returns (lists: seq<Callbacks>)
    ensures |lists| == |options| && (forall i :: 0 <= i < |lists| ==> fresh(lists[i]))
    ensures forall i :: 0 <= i < |lists| ==> lists[i].View() == NewList(options[i])
    ensures forall i, j :: 0 <= i < j < |lists| ==> lists[i] != lists[j]
  {
    lists := [];
    for k := 0 to |options|
      invariant |lists| == k && (forall i :: 0 <= i < k ==> fresh(lists[i]))
      invariant forall i :: 0 <= i < k ==> lists[i].View() == NewList(options[i])
      invariant forall i, j :: 0 <= i < j < k ==> lists[i] != lists[j]
    {
      var l := new Callbacks(options[k]);
      lists := lists + [l];
    }
  }

  /** The machine has come to the end of the program in the state the objects are in. */
  ghost predicate EndsIn(world: World, options: seq<Options>, program: seq<Op>)
    reads world, world.lists
  {
    exists m :: Reaches(Start(options, program), m) && m.control == [] && world.Shows(m)
  }

  /** Run a program on new lists.  If it ends, the machine has ended in the same state; so on every
      "once memory" list the callbacks have the fates that are proved of the machine.  It ends if the
      machine does within as many steps as there is fuel, which is known of lists that are fired once. */
  method RunProgram(options: seq<Options>, program: seq<Op>, fuel: nat) returns (ok: bool, world: World)
    ensures fresh(world) && |world.lists| == |options|
    ensures if ok then EndsIn(world, options, program) else Lasts(Start(options, program), fuel)
    ensures (forall t :: 0 <= t < |options| ==> options[t].once) && fuel >= Bound(program) ==> ok
    ensures ok ==> forall t :: 0 <= t < |options| && OnceMemory(options[t]) ==>
      Balanced(world.log, t) && (world.lists[t].memory.Some? ==> AllMet(Book(world.log, t)))
  {
    var lists := NewLists(options);
    world := new World(lists);
    ghost var m, r := Start(options, program), Start(options, program);
    StartHolds(options, program);
    assert m.control == [] + [Body(program)];
    ok, r := world.RunBody(program, fuel, m, []);
    EnoughFuel(options, program, fuel);
    if ok {
      forall t | 0 <= t < |options| && OnceMemory(options[t])
        ensures Balanced(world.log, t) && (world.lists[t].memory.Some? ==> AllMet(Book(world.log, t)))
      {
        EndedFates(options, program, r, t);
      }
    }
  }

  lemma EndedFates(options: seq<Options>, program: seq<Op>, m: Machine, t: nat)
    requires t < |options| && OnceMemory(options[t]) && Reaches(Start(options, program), m) && m.control == []
    ensures t < |m.lists| && Balanced(m.log, t) && (m.lists[t].memory.Some? ==> AllMet(Book(m.log, t)))
  {
    var n: nat :| Run(Start(options, program), n) == m;
    EveryFate(options, program, n, t);
    RunFollows(options, program, n, t);
  }

  lemma EnoughFuel(options: seq<Options>, program: seq<Op>, fuel: nat)
    ensures (forall t :: 0 <= t < |options| ==> options[t].once) && fuel >= Bound(program)
        ==> !Lasts(Start(options, program), fuel)
  {
    if (forall t :: 0 <= t < |options| ==> options[t].once) && Lasts(Start(options, program), fuel)
       && fuel >= Bound(program) {
      OnceEnds(options, program);
      LastsBefore(Start(options, program), Bound(program), fuel);
      assert false;
    }
  }
}
