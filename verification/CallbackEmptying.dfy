/** What empty does to a "once memory" list: during a firing it makes the loop pass over callbacks
    that are added next, and on a disabled list it brings the list back. */
module CallbackEmptying {
  import opened CallbackLists
  import opened CallbackQueues
  import opened CallbackFates

  // ---------------------------------------------------------------------------
  // Fates are final

  /** y is x, possibly with its fate met; only a callback that is new can be passed by. */
  ghost predicate Later(x: Entry, y: Entry) {
    y == x.(fate := y.fate) && (if x.fate.Waits? then !y.fate.PassedBy? else y == x)
  }

  ghost predicate AllLater(b: seq<Entry>, r: seq<Entry>) {
    |b| <= |r| && forall k :: 0 <= k < |b| ==> Later(b[k], r[k])
  }

  lemma NextKeeps(b: seq<Entry>, q: Queue, e: Event, at: nat, t: nat)
    ensures AllLater(b, NextBook(b, q, e, at, t))
  {
    if e.Did? && !e.op.Settle? && e.op.target == t {
      match e.op
      case Add(_, cbs) => AddedLater(b, NewEntries(cbs, at, Skipped(q, |cbs|)));
      case Remove(_, id) => OutLater(b, Some(id), at);
      case Fire(_, _) =>
      case _ => OutLater(b, None, at);
    } else {
      RunLater(b, at);
    }
  }

  lemma AddedLater(b: seq<Entry>, more: seq<Entry>)
    ensures AllLater(b, b + more)
  {}

  lemma OutLater(b: seq<Entry>, id: Option<nat>, at: nat)
    ensures AllLater(b, TakenOut(b, id, at))
  {}

  lemma RunLater(b: seq<Entry>, at: nat)
    ensures AllLater(b, FirstRuns(b, at))
  {
    FirstRunsIs(b, at);
  }

  /** The book only grows, and a fate that is met stays. */
  lemma {:induction false} FatesAreFinal(log: seq<Event>, t: nat, n: nat)
    requires n <= |log|
    ensures AllLater(Book(log[..n], t), Book(log, t))
    decreases |log|
  {
    if n == |log| {
      assert log[..n] == log;
    } else {
      assert log[..|log| - 1][..n] == log[..n];
      FatesAreFinal(log[..|log| - 1], t, n);
      EventKeeps(log, t);
    }
  }

  lemma EventKeeps(log: seq<Event>, t: nat)
    requires |log| > 0
    ensures AllLater(Book(log[..|log| - 1], t), Book(log, t))
  {
    var before := log[..|log| - 1];
    if Replay(before, t).Some? {
      NextKeeps(Book(before, t), Replay(before, t).value, log[|log| - 1], |log| - 1, t);
    }
  }

  lemma {:induction false} ReplayPrefix(log: seq<Event>, t: nat, n: nat)
    requires n <= |log| && Replay(log, t).Some?
    ensures Replay(log[..n], t).Some?
    decreases |log|
  {
    if n == |log| {
      assert log[..n] == log;
    } else {
      assert log[..|log| - 1][..n] == log[..n];
      ReplayPrefix(log[..|log| - 1], t, n);
    }
  }

  // ---------------------------------------------------------------------------
  // Emptying during a firing

  /** Places the loop of a firing has passed. */
  function PlacesPassed(q: Queue): nat {
    |q.passed| + q.skip
  }

  /** Event i takes everything out of list t. */
  ghost predicate Clears(log: seq<Event>, i: nat, t: nat) {
    && i < |log| && log[i].Did? && !log[i].op.Settle? && log[i].op.target == t
    && (log[i].op.Empty? || log[i].op.Disable?
        || (log[i].op.Lock? && Replay(log[..i], t).Some? && !Replay(log[..i], t).value.remembers))
  }

  /** Between events e and a list t is not cleared, and no firing of it ends. */
  ghost predicate Quiet(log: seq<Event>, t: nat, e: nat, a: nat) {
    forall i :: e < i < a && i < |log| ==> log[i] != Ended(t) && !Clears(log, i, t)
  }

  /** Number of callbacks added to list t after event e. */
  ghost function AddedSince(log: seq<Event>, t: nat, e: nat): nat {
    if |log| <= e + 1 then 0
    else
      var x := log[|log| - 1];
      AddedSince(log[..|log| - 1], t, e) + if x.Did? && x.op.Add? && x.op.target == t then |x.op.cbs| else 0
  }

  lemma ClearsBefore(log: seq<Event>, t: nat, e: nat)
    requires |log| > 0 && Quiet(log, t, e, |log|)
    ensures Quiet(log[..|log| - 1], t, e, |log| - 1)
  {
    var before := log[..|log| - 1];
    forall i | e < i < |before| ensures before[i] != Ended(t) && !Clears(before, i, t) {
      assert before[i] == log[i] && before[..i] == log[..i];
    }
  }

  /** After empty, each callback added uses up one of the places the loop had passed. */
  lemma {:induction false} SkipAfterEmpty(log: seq<Event>, t: nat, e: nat)
    requires Replay(log, t).Some? && e < |log| && log[e] == Did(Empty(t)) && Quiet(log, t, e, |log|)
    ensures Replay(log[..e], t).Some? && Replay(log, t).value.live
    ensures var places, added := PlacesPassed(Replay(log[..e], t).value), AddedSince(log, t, e);
      Replay(log, t).value.skip == if added < places then places - added else 0
    decreases |log|
  {
    var n := |log| - 1;
    ReplayPrefix(log, t, e);
    if e < n {
      assert log[..n][..e] == log[..e];
      ClearsBefore(log, t, e);
      SkipAfterEmpty(log[..n], t, e);
      assert !Clears(log, n, t);
    }
  }

  /** Places are passed beyond the end of the list only because it was emptied during this firing. */
  lemma {:induction false} SkipFromEmpty(log: seq<Event>, t: nat) returns (e: nat)
    requires Replay(log, t).Some? && Replay(log, t).value.live && Replay(log, t).value.skip > 0
    ensures e < |log| && log[e] == Did(Empty(t)) && Quiet(log, t, e, |log|)
  {
    var n := |log| - 1;
    var x := log[n];
    if x == Did(Empty(t)) {
      e := n;
    } else {
      e := SkipFromEmpty(log[..n], t);
      forall i | e < i < |log| ensures log[i] != Ended(t) && !Clears(log, i, t) {
        if i < n {
          assert log[..n][i] == log[i] && log[..n][..i] == log[..i];
        }
      }
    }
  }

  /** x is the entry of the jth callback added at event a, when so many places are passed beyond the
      end of the list. */
  ghost predicate IsEntry(x: Entry, e: Event, a: nat, j: nat, skip: int)
    requires e.Did? && e.op.Add? && j < |e.op.cbs|
  {
    x.added == a && x.nth == j && x.cb == e.op.cbs[j] && (x.fate.PassedBy? <==> j < skip)
  }

  ghost predicate IsAdd(e: Event, t: nat, j: nat) {
    e.Did? && e.op.Add? && e.op.target == t && j < |e.op.cbs|
  }

  lemma NewEntry(b: seq<Entry>, q: Queue, e: Event, a: nat, t: nat, j: nat)
    requires IsAdd(e, t, j) && q.live
    ensures |b| + j < |NextBook(b, q, e, a, t)| && IsEntry(NextBook(b, q, e, a, t)[|b| + j], e, a, j, q.skip)
    ensures var x := NextBook(b, q, e, a, t)[|b| + j]; x.fate.PassedBy? || x.fate.Waits?
  {}

  lemma EntryOf(log: seq<Event>, t: nat, a: nat, j: nat)
    requires a < |log| && IsThere(log[..a], t) && IsAdd(log[a], t, j)
    ensures var k := |Book(log[..a], t)| + j;
      k < |Book(log, t)| && IsEntry(Book(log, t)[k], log[a], a, j, Replay(log[..a], t).value.skip)
  {
    var k, upTo := |Book(log[..a], t)| + j, log[..a + 1];
    assert upTo[..a] == log[..a] && upTo[a] == log[a];
    NewEntry(Book(log[..a], t), Replay(log[..a], t).value, log[a], a, t, j);
    FatesAreFinal(log, t, a + 1);
    assert Later(Book(upTo, t)[k], Book(log, t)[k]);
  }

  /** The jth callback added at event a is passed by if and only if, with it, fewer callbacks have been
      added since event e than the loop had passed places before e. */
  ghost predicate PassedExactly(log: seq<Event>, t: nat, e: nat, a: nat, j: nat)
    requires e < a < |log| && IsAdd(log[a], t, j)
  {
    && Replay(log[..e], t).Some?
    && var k, places := |Book(log[..a], t)| + j, PlacesPassed(Replay(log[..e], t).value);
    && k < |Book(log, t)| && Book(log, t)[k].added == a && Book(log, t)[k].nth == j
    && Book(log, t)[k].cb == log[a].op.cbs[j]
    && (Book(log, t)[k].fate.PassedBy? <==> AddedSince(log[..a], t, e) + j < places)
  }

  lemma AddedAfterEmptyIn(log: seq<Event>, t: nat, e: nat, a: nat, j: nat)
    requires Replay(log, t).Some? && e < a < |log| && log[e] == Did(Empty(t)) && Quiet(log, t, e, a)
    requires IsAdd(log[a], t, j)
    ensures PassedExactly(log, t, e, a, j)
  {
    ReplayPrefix(log, t, a);
    ReplayPrefix(log, t, e);
    QuietUpTo(log, t, e, a, log[..a]);
    assert log[..a][..e] == log[..e];
    SkipAfterEmpty(log[..a], t, e);
    EntryOf(log, t, a, j);
  }

  /** In every run: a callback added after the list was emptied in the same firing is passed over,
      and never called, if and only if fewer callbacks have been added since than the loop had passed
      places; the places are the loop's index plus one. */
  lemma AddedAfterEmpty(options: seq<Options>, program: seq<Op>, steps: nat, t: nat, e: nat, a: nat, j: nat)
    requires t < |options| && OnceMemory(options[t])
    requires var log := Run(Start(options, program), steps).log;
      && e < a < |log| && log[e] == Did(Empty(t)) && Quiet(log, t, e, a) && IsAdd(log[a], t, j)
    ensures var log := Run(Start(options, program), steps).log;
      Balanced(log, t) && PassedExactly(log, t, e, a, j)
  {
    var log := Run(Start(options, program), steps).log;
    EveryFate(options, program, steps, t);
    AddedAfterEmptyIn(log, t, e, a, j);
  }

  /** A callback is passed over only after the list was emptied in the same firing: without empty
      every callback is called, or taken out before its turn. */
  lemma {:induction false} PassedOnlyAfterEmpty(log: seq<Event>, t: nat, k: nat) returns (e: nat)
    requires Replay(log, t).Some? && k < |Book(log, t)| && Book(log, t)[k].fate.PassedBy?
    ensures var a := Book(log, t)[k].added;
      e < a < |log| && log[e] == Did(Empty(t)) && Quiet(log, t, e, a)
    decreases |log|
  {
    var n := |log| - 1;
    var before := log[..n];
    NextKeeps(Book(before, t), Replay(before, t).value, log[n], n, t);
    if k < |Book(before, t)| {
      assert Later(Book(before, t)[k], Book(log, t)[k]);
      e := PassedOnlyAfterEmpty(before, t, k);
    } else {
      e := SkipFromEmpty(before, t);
    }
    var a := Book(log, t)[k].added;
    forall i | e < i < a && i < |log| ensures log[i] != Ended(t) && !Clears(log, i, t) {
      assert before[i] == log[i] && before[..i] == log[..i];
    }
  }

  /** What the queue calls places passed is the loop's index, plus one while a callback runs. */
  lemma PlacesAreIndex(options: seq<Options>, program: seq<Op>, steps: nat, t: nat)
    requires t < |options| && OnceMemory(options[t])
    ensures var m := Run(Start(options, program), steps);
      t < |m.lists| && Replay(m.log, t).Some? &&
      if m.lists[t].firing
      then |Frames(m.control, t)| == 1
           && PlacesPassed(Replay(m.log, t).value) == Places(m.lists[t], Frames(m.control, t)[0])
      else PlacesPassed(Replay(m.log, t).value) == 0
  {
    RunFollows(options, program, steps, t);
  }

  /** Entry k has run if and only if the condition holds. */
  ghost predicate RunsIff(b: seq<Entry>, k: nat, condition: bool) {
    k < |b| && (b[k].fate.RanAt? <==> condition)
  }

  /** The jth callback added at event a is behind the places passed before event e. */
  ghost predicate IsBehind(log: seq<Event>, t: nat, e: nat, a: nat, j: nat)
    requires e <= a <= |log| && Replay(log[..e], t).Some?
  {
    AddedSince(log[..a], t, e) + j >= PlacesPassed(Replay(log[..e], t).value)
  }

  /** The jth callback added at event a has been called if and only if its place was not passed. */
  ghost predicate CalledExactly(log: seq<Event>, t: nat, e: nat, a: nat, j: nat)
    requires e < a < |log|
  {
    Replay(log[..e], t).Some? && RunsIff(Book(log, t), |Book(log[..a], t)| + j, IsBehind(log, t, e, a, j))
  }

  ghost predicate NeverOut(log: seq<Event>, t: nat, a: nat, cb: Callback) {
    forall i :: a < i < |log| ==> !TakesOut(log, i, cb, t)
  }

  /** An entry that has met its fate and was not taken out has run, or was passed by. */
  lemma EntryRuns(x: Entry, log: seq<Event>, t: nat)
    requires IsTrue(x, log, t) && !x.fate.Waits? && NeverOut(log, t, x.added, x.cb)
    ensures x.fate.RanAt? || x.fate.PassedBy?
  {}

  /** When a firing ends nothing waits any more. */
  lemma NothingWaits(log: seq<Event>, t: nat)
    requires |log| > 0 && log[|log| - 1] == Ended(t) && Replay(log, t).Some?
    ensures AllMet(Book(log, t))
  {
    BookBalances(log, t);
    NoneDue(Book(log, t));
  }

  ghost predicate NeverOutBefore(log: seq<Event>, t: nat, a: nat, f: nat, cb: Callback) {
    forall i :: a < i < f && i < |log| ==> !TakesOut(log, i, cb, t)
  }

  lemma NeverOutPrefix(log: seq<Event>, t: nat, a: nat, f: nat, cb: Callback, upTo: seq<Event>)
    requires f < |log| && log[f] == Ended(t) && NeverOutBefore(log, t, a, f, cb) && upTo == log[..f + 1]
    ensures NeverOut(upTo, t, a, cb)
  {
    forall i | a < i < |upTo| ensures !TakesOut(upTo, i, cb, t) {
      assert upTo[i] == log[i] && upTo[..i] == log[..i];
      assert i < f ==> !TakesOut(log, i, cb, t);
    }
  }

  lemma CalledAtEnd(log: seq<Event>, t: nat, e: nat, a: nat, j: nat)
    requires e < a < |log| && IsAdd(log[a], t, j) && PassedExactly(log, t, e, a, j)
    requires AllTrue(Book(log, t), log, t) && NeverOut(log, t, a, log[a].op.cbs[j]) && AllMet(Book(log, t))
    ensures CalledExactly(log, t, e, a, j)
  {
    EntryRuns(Book(log, t)[|Book(log[..a], t)| + j], log, t);
  }

  /** The callbacks called when a firing ends stay called. */
  lemma RunsStay(b: seq<Entry>, r: seq<Entry>, k: nat, condition: bool)
    requires AllLater(b, r) && AllMet(b) && RunsIff(b, k, condition)
    ensures RunsIff(r, k, condition)
  {
    assert Later(b[k], r[k]);
  }

  lemma CalledStays(log: seq<Event>, t: nat, e: nat, a: nat, j: nat, upTo: seq<Event>)
    requires e < a < |upTo| <= |log| && upTo[..e] == log[..e] && upTo[..a] == log[..a]
    requires CalledExactly(upTo, t, e, a, j) && AllMet(Book(upTo, t)) && AllLater(Book(upTo, t), Book(log, t))
    ensures CalledExactly(log, t, e, a, j)
  {
    RunsStay(Book(upTo, t), Book(log, t), |Book(log[..a], t)| + j, IsBehind(log, t, e, a, j));
  }

  lemma CalledAfterEmptyIn(log: seq<Event>, t: nat, e: nat, a: nat, j: nat, f: nat)
    requires Replay(log, t).Some? && e < a < f < |log| && log[e] == Did(Empty(t)) && Quiet(log, t, e, a)
    requires IsAdd(log[a], t, j) && log[f] == Ended(t) && NeverOutBefore(log, t, a, f, log[a].op.cbs[j])
    ensures CalledExactly(log, t, e, a, j)
  {
    var upTo := log[..f + 1];
    ReplayPrefix(log, t, f + 1);
    NothingWaits(upTo, t);
    BookBalances(upTo, t);
    QuietUpTo(log, t, e, a, upTo);
    AddedAfterEmptyIn(upTo, t, e, a, j);
    NeverOutPrefix(log, t, a, f, log[a].op.cbs[j], upTo);
    CalledAtEnd(upTo, t, e, a, j);
    CalledUpTo(log, t, e, a, j, upTo);
  }

  lemma CalledUpTo(log: seq<Event>, t: nat, e: nat, a: nat, j: nat, upTo: seq<Event>)
    requires e < a < |upTo| <= |log| && upTo == log[..|upTo|]
    requires CalledExactly(upTo, t, e, a, j) && AllMet(Book(upTo, t))
    ensures CalledExactly(log, t, e, a, j)
  {
    FatesAreFinal(log, t, |upTo|);
    assert upTo[..e] == log[..e] && upTo[..a] == log[..a];
    CalledStays(log, t, e, a, j, upTo);
  }

  lemma QuietUpTo(log: seq<Event>, t: nat, e: nat, a: nat, upTo: seq<Event>)
    requires a <= |upTo| <= |log| && upTo == log[..|upTo|] && Quiet(log, t, e, a)
    ensures Quiet(upTo, t, e, a)
  {
    forall i | e < i < a ensures upTo[i] != Ended(t) && !Clears(upTo, i, t) {
      assert upTo[i] == log[i] && upTo[..i] == log[..i];
    }
  }

  /** In every run, whether the list had been disabled or not: of the callbacks added after empty in the
      same firing, and not taken out again while that or the next firing lasts, exactly those behind the
      places passed have been called when it ends. */
  lemma CalledAfterEmpty(options: seq<Options>, program: seq<Op>, steps: nat, t: nat, e: nat, a: nat, j: nat, f: nat)
    requires t < |options| && OnceMemory(options[t])
    requires var log := Run(Start(options, program), steps).log;
      && e < a < f < |log| && log[e] == Did(Empty(t)) && Quiet(log, t, e, a) && IsAdd(log[a], t, j)
      && log[f] == Ended(t) && NeverOutBefore(log, t, a, f, log[a].op.cbs[j])
    ensures CalledExactly(Run(Start(options, program), steps).log, t, e, a, j)
  {
    RunFollows(options, program, steps, t);
    CalledAfterEmptyIn(Run(Start(options, program), steps).log, t, e, a, j, f);
  }

  /** A list that remembers its firing at the end has called all that were not passed. */
  lemma CalledIfRemembered(options: seq<Options>, program: seq<Op>, steps: nat, t: nat, e: nat, a: nat, j: nat)
    requires t < |options| && OnceMemory(options[t])
    requires var m := Run(Start(options, program), steps); var log := m.log;
      && e < a < |log| && log[e] == Did(Empty(t)) && Quiet(log, t, e, a) && IsAdd(log[a], t, j)
      && |m.control| == 0 && m.lists[t].memory.Some? && NeverOut(log, t, a, log[a].op.cbs[j])
    ensures CalledExactly(Run(Start(options, program), steps).log, t, e, a, j)
  {
    var m := Run(Start(options, program), steps);
    EveryFate(options, program, steps, t);
    RunFollows(options, program, steps, t);
    AddedAfterEmptyIn(m.log, t, e, a, j);
    CalledAtEnd(m.log, t, e, a, j);
  }

  // ---------------------------------------------------------------------------
  // A run in which an added callback is never called

  /** Added behind the emptied list while the first callback of a firing runs. */
  function Lost(): Callback {
    Callback(2, [], false)
  }

  function Emptier(): Callback {
    Callback(1, [Empty(0), Add(0, [Lost()])], false)
  }

  /** Add one callback to a list, and fire it. */
  function FireOne(cb: Callback): seq<Op> {
    [Add(0, [cb]), Fire(0, 5)]
  }

  const ONCE_MEMORY := Options(true, true, false, false)

  /** The list while it is fired. */
  function Firing(cbs: seq<Callback>, index: int): CallbackList {
    CallbackList(ONCE_MEMORY, Some(cbs), None, Some(5), true, true, index, |cbs|, 0)
  }

  /** One operation of the innermost body, with nothing fired. */
  lemma OpStep(l: CallbackList, lower: seq<Frame>, op: Op, rest: seq<Op>, log: seq<Event>, r: CallbackList)
    requires !op.Settle? && op.target == 0 && Result(l, op) == (r, None)
    ensures Step(Machine([l], lower + [Body([op] + rest)], map[], log))
         == Machine([r], lower + [Body(rest)], map[], log + [Did(op)])
  {
    assert (lower + [Body([op] + rest)])[..|lower|] == lower && ([op] + rest)[1..] == rest;
  }

  /** One that fires the list. */
  lemma FireStep(l: CallbackList, lower: seq<Frame>, op: Op, rest: seq<Op>, log: seq<Event>, data: Data)
    requires !op.Settle? && op.target == 0 && Result(l, op) == (l, Some(data)) && l.list.Some?
    ensures Step(Machine([l], lower + [Body([op] + rest)], map[], log))
         == Machine([StartFire(l, data)], lower + [Body(rest)] + [Test(0, data)], map[], log + [Did(op)])
  {
    assert (lower + [Body([op] + rest)])[..|lower|] == lower && ([op] + rest)[1..] == rest;
  }

  lemma BodyEnds(l: CallbackList, lower: seq<Frame>, log: seq<Event>)
    ensures Step(Machine([l], lower + [Body([])], map[], log)) == Machine([l], lower, map[], log)
  {
    assert (lower + [Body([])])[..|lower|] == lower;
  }

  lemma CallsNext(l: CallbackList, lower: seq<Frame>, data: Data, log: seq<Event>)
    requires l.list.Some? && 0 <= l.firingIndex < l.firingLength && l.firingIndex < |l.list.value|
    ensures var cb := l.list.value[l.firingIndex];
      Step(Machine([l], lower + [Test(0, data)], map[], log))
      == Machine([l], lower + [Returned(0, data, cb.returnsFalse)] + [Body(cb.body)], map[],
                 log + [Called(0, cb, data)])
  {
    assert (lower + [Test(0, data)])[..|lower|] == lower;
  }

  lemma LoopEnds(l: CallbackList, lower: seq<Frame>, data: Data, log: seq<Event>)
    requires !(l.list.Some? && l.firingIndex < l.firingLength) && EndFire(l).1.None?
    ensures Step(Machine([l], lower + [Test(0, data)], map[], log))
         == Machine([EndFire(l).0], lower, map[], log + [Ended(0)])
  {
    assert (lower + [Test(0, data)])[..|lower|] == lower;
  }

  lemma LoopGoesOn(l: CallbackList, lower: seq<Frame>, data: Data, log: seq<Event>)
    ensures Step(Machine([l], lower + [Returned(0, data, false)], map[], log))
         == Machine([l.(firingIndex := l.firingIndex + 1)], lower + [Test(0, data)], map[], log)
  {
    var f := Returned(0, data, false);
    assert (lower + [f])[..|lower|] == lower;
  }

  /** The first two steps: the list holds its only callback and starts to be fired. */
  lemma FirstSteps(cb: Callback) returns (m: Machine)
    ensures m == Run(Start([ONCE_MEMORY], FireOne(cb)), 2)
    ensures m == Machine([Firing([cb], 0)], [Body([])] + [Test(0, 5)], map[],
                         [Did(Add(0, [cb]))] + [Did(Fire(0, 5))])
  {
    var start, l, one := Start([ONCE_MEMORY], FireOne(cb)), NewList(ONCE_MEMORY), [cb];
    var l1 := l.(list := Some(one));
    PushedAll([], one);
    assert [] + one == one;
    assert FireOne(cb) == [Add(0, one)] + [Fire(0, 5)];
    assert start.lists == [l] && start.control == [] + [Body(FireOne(cb))];
    OpStep(l, [], Add(0, one), [Fire(0, 5)], [], l1);
    FireStep(l1, [], Fire(0, 5), [], [] + [Did(Add(0, one))], 5);
    m := Step(Step(start));
    assert Run(start, 0) == start && Run(start, 1) == Step(start);
    assert [Fire(0, 5)] == [Fire(0, 5)] + [];
  }

  /** Its callback empties it, adds another one and returns. */
  lemma BodySteps(lower: seq<Frame>, log: seq<Event>) returns (more: seq<Event>)
    ensures more == log + [Called(0, Emptier(), 5)] + [Did(Empty(0))] + [Did(Add(0, [Lost()]))]
    ensures Run(Machine([Firing([Emptier()], 0)], lower + [Test(0, 5)], map[], log), 5)
         == Machine([Firing([Lost()], 1)], lower + [Test(0, 5)], map[], more)
  {
    var m, l0, l1, l2 := Machine([Firing([Emptier()], 0)], lower + [Test(0, 5)], map[], log),
                         Firing([Emptier()], 0), Firing([], 0), Firing([Lost()], 0);
    var f, late := Returned(0, 5, false), [Lost()];
    var called := log + [Called(0, Emptier(), 5)];
    CallsNext(l0, lower, 5, log);
    assert Emptier().body == [Empty(0)] + ([Add(0, late)] + []);
    OpStep(l0, lower + [f], Empty(0), [Add(0, late)] + [], called, l1);
    PushedAll([], late);
    assert [] + late == late;
    OpStep(l1, lower + [f], Add(0, late), [], called + [Did(Empty(0))], l2);
    more := called + [Did(Empty(0))] + [Did(Add(0, late))];
    BodyEnds(l2, lower + [f], more);
    LoopGoesOn(l2, lower, 5, more);
    FiveSteps(m);
  }

  lemma FourSteps(m: Machine)
    ensures Run(m, 4) == Step(Step(Step(Step(m))))
  {
    assert Run(m, 0) == m;
    assert Run(m, 1) == Step(m);
    assert Run(m, 2) == Step(Step(m));
    assert Run(m, 3) == Step(Run(m, 2));
  }

  lemma FiveSteps(m: Machine)
    ensures Run(m, 5) == Step(Step(Step(Step(Step(m)))))
  {
    FourSteps(m);
  }

  /** The whole run. */
  lemma LosingEnds() returns (m: Machine, more: seq<Event>)
    ensures m == Run(Start([ONCE_MEMORY], FireOne(Emptier())), 9) && m.control == [] && m.log == more + [Ended(0)]
    ensures more == [Did(Add(0, [Emptier()]))] + [Did(Fire(0, 5))] + [Called(0, Emptier(), 5)] + [Did(Empty(0))]
                    + [Did(Add(0, [Lost()]))]
  {
    var start := Start([ONCE_MEMORY], FireOne(Emptier()));
    m := FirstSteps(Emptier());
    more := BodySteps([Body([])], m.log);
    var l := Firing([Lost()], 1);
    var _ := RunAdds(start, 2, 5);
    LoopEnds(l, [Body([])], 5, more);
    assert Run(start, 8) == Step(Run(start, 7));
    BodyEnds(EndFire(l).0, [], more + [Ended(0)]);
    assert [Body([])] == [] + [Body([])];
    assert Run(start, 9) == Step(Run(start, 8));
    m := Run(start, 9);
  }

  /** A program after which a callback that was added during the firing, and never taken out, has not
      been called. */
  lemma NeverCalled() returns (steps: nat)
    ensures var m := Run(Start([ONCE_MEMORY], FireOne(Emptier())), steps);
      && |m.control| == 0 && Did(Add(0, [Lost()])) in m.log
      && forall i :: 0 <= i < |m.log| && m.log[i].Called? ==> m.log[i].cb != Lost()
  {
    var m, more := LosingEnds();
    assert m.log[4] == Did(Add(0, [Lost()]));
    assert Emptier().id == 1 && Lost().id == 2;
    steps := 9;
  }
}
