/** What is true of every operation a program can come to perform: those written in it, and those in the
    bodies of the callbacks it adds. */
module CallbackPrograms {
  import opened CallbackLists

  /** The operation satisfies p, and so do those of the callbacks it adds. */
  ghost predicate OpFits(op: Op, p: Op -> bool)
    decreases op
  {
    p(op) && (op.Add? ==> forall i :: 0 <= i < |op.cbs| ==> CallbackFits(op.cbs[i], p))
  }

  ghost predicate CallbackFits(cb: Callback, p: Op -> bool)
    decreases cb
  {
    forall i :: 0 <= i < |cb.body| ==> OpFits(cb.body[i], p)
  }

  ghost predicate OpsFit(ops: seq<Op>, p: Op -> bool) {
    forall i :: 0 <= i < |ops| ==> OpFits(ops[i], p)
  }

  ghost predicate CallbacksFit(cbs: seq<Callback>, p: Op -> bool) {
    forall i :: 0 <= i < |cbs| ==> CallbackFits(cbs[i], p)
  }

  ghost predicate ListFits(l: CallbackList, p: Op -> bool) {
    l.list.Some? ==> CallbacksFit(l.list.value, p)
  }

  ghost predicate FrameFits(f: Frame, p: Op -> bool) {
    f.Body? ==> OpsFit(f.ops, p)
  }

  ghost predicate FramesFit(control: seq<Frame>, p: Op -> bool) {
    forall i :: 0 <= i < |control| ==> FrameFits(control[i], p)
  }

  /** All lists but some. */
  ghost predicate ListsFit(lists: seq<CallbackList>, p: Op -> bool, but: set<nat>) {
    forall t: nat :: t < |lists| && t !in but ==> ListFits(lists[t], p)
  }

  ghost predicate HistoryFits(log: seq<Event>, p: Op -> bool) {
    forall i :: 0 <= i < |log| && log[i].Did? ==> p(log[i].op)
  }

  ghost predicate Fits(m: Machine, p: Op -> bool, but: set<nat>) {
    FramesFit(m.control, p) && ListsFit(m.lists, p, but)
  }

  // ---------------------------------------------------------------------------
  // Lists

  lemma {:induction false} PushedFits(cbs: seq<Callback>, more: seq<Callback>, unique: bool, p: Op -> bool)
    requires CallbacksFit(cbs, p) && CallbacksFit(more, p)
    ensures CallbacksFit(Pushed(cbs, more, unique), p)
    decreases |more|
  {
    if |more| > 0 {
      PushedFits(if unique && Has(cbs, more[0].id) then cbs else cbs + [more[0]], more[1..], unique, p);
    }
  }

  lemma {:induction false} RemoveFits(l: CallbackList, id: nat, i: nat, p: Op -> bool)
    requires l.list.Some? && i <= |l.list.value| && ListFits(l, p)
    ensures ListFits(RemoveFrom(l, id, i), p)
    decreases |l.list.value| - i
  {
    var k := IndexFrom(l.list.value, id, i);
    if k < |l.list.value| {
      RemoveFits(RemoveAt(l, k), id, k, p);
    }
  }

  /** The methods put nothing into a list but what they are given. */
  lemma ResultFits(l: CallbackList, op: Op, p: Op -> bool)
    requires !op.Settle? && ListFits(l, p) && (op.Add? ==> CallbacksFit(op.cbs, p))
    ensures ListFits(Stored(Result(l, op)), p)
  {
    if op.Add? && l.list.Some? {
      PushedFits(l.list.value, op.cbs, l.options.unique, p);
    } else if op.Remove? && l.list.Some? {
      RemoveFits(l, op.id, 0, p);
    }
  }

  lemma EndFits(l: CallbackList, p: Op -> bool)
    requires ListFits(l, p)
    ensures ListFits(Stored(EndFire(l)), p)
  {}

  // ---------------------------------------------------------------------------
  // Steps

  lemma FramesFitPush(control: seq<Frame>, f: Frame, p: Op -> bool)
    requires FramesFit(control, p) && FrameFits(f, p)
    ensures FramesFit(control + [f], p)
  {}

  lemma StoreFits(m: Machine, t: nat, result: (CallbackList, Option<Data>), p: Op -> bool, but: set<nat>)
    requires t < |m.lists| && Fits(m, p, but) && (t !in but ==> ListFits(Stored(result), p))
    ensures Fits(Store(m, t, result), p, but)
  {
    if result.1.Some? && result.0.list.Some? {
      FramesFitPush(m.control, Test(t, result.1.value), p);
    }
  }

  lemma PerformFits(m: Machine, op: Op, p: Op -> bool, but: set<nat>)
    requires Fits(m, p, but) && OpFits(op, p)
    ensures Fits(Perform(m, op), p, but)
  {
    if !op.Settle? && op.target < |m.lists| {
      var t := op.target;
      if t !in but {
        ResultFits(m.lists[t], op, p);
      }
      StoreFits(m, t, Result(m.lists[t], op), p, but);
    }
  }

  /** The machine once a body has moved past its first operation, before that is performed. */
  function Past(m: Machine): Machine
    requires |m.control| > 0 && m.control[|m.control| - 1].Body? && |m.control[|m.control| - 1].ops| > 0
  {
    var n := |m.control| - 1;
    var ops := m.control[n].ops;
    m.(control := m.control[..n] + [Body(ops[1..])], log := m.log + [Did(ops[0])])
  }

  lemma PastFits(m: Machine, p: Op -> bool, but: set<nat>)
    requires Fits(m, p, but) && |m.control| > 0
    requires m.control[|m.control| - 1].Body? && |m.control[|m.control| - 1].ops| > 0
    ensures Fits(Past(m), p, but) && OpFits(m.control[|m.control| - 1].ops[0], p)
  {
    var n := |m.control| - 1;
    assert FrameFits(m.control[n], p);
    FramesFitPush(m.control[..n], Body(m.control[n].ops[1..]), p);
  }

  lemma BodyFits(m: Machine, p: Op -> bool, but: set<nat>)
    requires Fits(m, p, but) && |m.control| > 0 && m.control[|m.control| - 1].Body?
    ensures Fits(Step(m), p, but)
  {
    var ops := m.control[|m.control| - 1].ops;
    if |ops| > 0 {
      PastFits(m, p, but);
      PerformFits(Past(m), ops[0], p, but);
    }
  }

  lemma LeaveFits(m: Machine, t: nat, l: CallbackList, p: Op -> bool, but: set<nat>)
    requires Fits(m, p, but) && t < |m.lists| && (t !in but ==> ListFits(l, p))
    ensures Fits(Leave(m, t, l), p, but)
  {
    if t !in but {
      EndFits(l, p);
    }
    StoreFits(m.(log := m.log + [Ended(t)]), t, EndFire(l), p, but);
  }

  lemma CallFits(m: Machine, t: nat, data: Data, p: Op -> bool, but: set<nat>)
    requires Fits(m, p, but) && |m.control| > 0 && m.control[|m.control| - 1] == Test(t, data)
    requires t < |m.lists| && t !in but
    requires var l := m.lists[t]; l.list.Some? && l.firingIndex < l.firingLength
    ensures Fits(Step(m), p, but)
  {
    var n, l := |m.control| - 1, m.lists[t];
    if 0 <= l.firingIndex < |l.list.value| {
      var cb := l.list.value[l.firingIndex];
      var f := Returned(t, data, cb.returnsFalse);
      FramesFitPush(m.control[..n], f, p);
      FramesFitPush(m.control[..n] + [f], Body(cb.body), p);
      assert Step(m).control == m.control[..n] + [f] + [Body(cb.body)];
    }
  }

  lemma LoopFits(m: Machine, p: Op -> bool, but: set<nat>)
    requires Fits(m, p, but) && |m.control| > 0
    requires var f := m.control[|m.control| - 1]; !f.Body? && f.target !in but
    ensures Fits(Step(m), p, but)
  {
    var n := |m.control| - 1;
    var rest, f := m.(control := m.control[..n]), m.control[n];
    assert Fits(rest, p, but);
    if f.target < |m.lists| {
      var l := m.lists[f.target];
      if f.Test? && l.list.Some? && l.firingIndex < l.firingLength {
        CallFits(m, f.target, f.data, p, but);
      } else if f.Test? {
        LeaveFits(rest, f.target, l, p, but);
      } else if f.returnsFalse && l.options.stopOnFalse {
        LeaveFits(rest, f.target, l.(memory := None), p, but);
      } else {
        FramesFitPush(rest.control, Test(f.target, f.data), p);
      }
    }
  }

  /** What is performed is the operation that comes next. */
  lemma HistoryStep(m: Machine, p: Op -> bool)
    requires FramesFit(m.control, p) && HistoryFits(m.log, p)
    ensures HistoryFits(Step(m).log, p)
  {
    if |m.control| > 0 {
      assert FrameFits(m.control[|m.control| - 1], p);
    }
  }

  lemma StepFits(m: Machine, p: Op -> bool)
    requires Fits(m, p, {}) && HistoryFits(m.log, p)
    ensures Fits(Step(m), p, {}) && HistoryFits(Step(m).log, p)
  {
    HistoryStep(m, p);
    if |m.control| > 0 {
      if m.control[|m.control| - 1].Body? {
        BodyFits(m, p, {});
      } else {
        LoopFits(m, p, {});
      }
    }
  }

  lemma {:induction false} RunFits(m: Machine, p: Op -> bool, steps: nat)
    requires Fits(m, p, {}) && HistoryFits(m.log, p)
    ensures Fits(Run(m, steps), p, {}) && HistoryFits(Run(m, steps).log, p)
  {
    if steps > 0 {
      RunFits(m, p, steps - 1);
      StepFits(Run(m, steps - 1), p);
    }
  }

  /** What holds of all operations by a weaker predicate. */
  lemma {:induction false} OpWeaker(op: Op, p: Op -> bool, q: Op -> bool)
    requires OpFits(op, p) && forall o :: p(o) ==> q(o)
    ensures OpFits(op, q)
    decreases op
  {
    if op.Add? {
      forall i | 0 <= i < |op.cbs| ensures CallbackFits(op.cbs[i], q) {
        CallbackWeaker(op.cbs[i], p, q);
      }
    }
  }

  lemma {:induction false} CallbackWeaker(cb: Callback, p: Op -> bool, q: Op -> bool)
    requires CallbackFits(cb, p) && forall o :: p(o) ==> q(o)
    ensures CallbackFits(cb, q)
    decreases cb
  {
    forall i | 0 <= i < |cb.body| ensures OpFits(cb.body[i], q) {
      OpWeaker(cb.body[i], p, q);
    }
  }

  /** In every run of a program all of whose operations, written or in callbacks, satisfy p, only such
      operations are performed. */
  lemma OnlyWritten(options: seq<Options>, program: seq<Op>, steps: nat, p: Op -> bool)
    requires OpsFit(program, p)
    ensures HistoryFits(Run(Start(options, program), steps).log, p)
  {
    RunFits(Start(options, program), p, steps);
  }
}
