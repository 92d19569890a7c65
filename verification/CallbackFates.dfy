/** What becomes of every callback added to a "once memory" list, in every run of every program: it
    runs exactly once, in the order of adding, unless something takes it out before its turn, or the
    loop has already passed its place. */
module CallbackFates {
  import opened CallbackLists
  import opened CallbackQueues

  /** Waits to be called; ran, or was taken out, at an event of the history; or was added at a place
      the loop had passed. */
  datatype Fate = Waits | RanAt(at: nat) | OutAt(at: nat) | PassedBy

  /** A callback that was added: the nth of those added at one event. */
  datatype Entry = Entry(cb: Callback, added: nat, nth: nat, fate: Fate)

  function NewEntries(cbs: seq<Callback>, at: nat, skipped: nat): (b: seq<Entry>)
    ensures |b| == |cbs|
  {
    seq(|cbs|, j requires 0 <= j < |cbs| => Entry(cbs[j], at, j, if j < skipped then PassedBy else Waits))
  }

  /** Every waiting callback, or every one with this id, is out. */
  function TakenOut(b: seq<Entry>, id: Option<nat>, at: nat): (r: seq<Entry>)
    ensures |r| == |b|
  {
    seq(|b|, k requires 0 <= k < |b| =>
      if b[k].fate.Waits? && (id.None? || b[k].cb.id == id.value) then b[k].(fate := OutAt(at)) else b[k])
  }

  /** The first waiting callback runs. */
  function FirstRuns(b: seq<Entry>, at: nat): (r: seq<Entry>)
    ensures |r| == |b|
  {
    if |b| == 0 then []
    else if b[0].fate.Waits? then [b[0].(fate := RanAt(at))] + b[1..]
    else [b[0]] + FirstRuns(b[1..], at)
  }

  function NextBook(b: seq<Entry>, q: Queue, e: Event, at: nat, t: nat): (r: seq<Entry>)
    ensures |b| <= |r|
  {
    match e
    case Did(op) =>
      if op.Settle? || op.target != t then b
      else
        (match op
         case Add(_, cbs) => if q.live then b + NewEntries(cbs, at, Skipped(q, |cbs|)) else b
         case Remove(_, id) => TakenOut(b, Some(id), at)
         case Empty(_) => TakenOut(b, None, at)
         case Disable(_) => TakenOut(b, None, at)
         case Lock(_) => if q.remembers then b else TakenOut(b, None, at)
         case Fire(_, _) => b)
    case Called(u, _, _) => if u == t then FirstRuns(b, at) else b
    case Ended(_) => b
  }

  /** Every callback added to list t while the list was there, in the order of adding, with its fate. */
  function Book(log: seq<Event>, t: nat): seq<Entry> {
    if |log| == 0 then []
    else
      var n := |log| - 1;
      var q := Replay(log[..n], t);
      if q.None? then Book(log[..n], t) else NextBook(Book(log[..n], t), q.value, log[n], n, t)
  }

  // ---------------------------------------------------------------------------
  // The waiting callbacks are those due

  function DueHead(x: Entry): seq<Callback> {
    if x.fate.Waits? then [x.cb] else []
  }

  function DueOf(b: seq<Entry>): seq<Callback> {
    if |b| == 0 then [] else DueHead(b[0]) + DueOf(b[1..])
  }

  function RanHead(x: Entry): seq<Callback> {
    if x.fate.RanAt? then [x.cb] else []
  }

  /** The callbacks that have run, in the order of adding. */
  function RanOf(b: seq<Entry>): seq<Callback> {
    if |b| == 0 then [] else RanHead(b[0]) + RanOf(b[1..])
  }

  lemma Regroup(h: seq<Callback>, x: seq<Callback>, y: seq<Callback>)
    ensures h + (x + y) == (h + x) + y
  {}

  lemma {:induction false} DueConcat(a: seq<Entry>, b: seq<Entry>)
    ensures DueOf(a + b) == DueOf(a) + DueOf(b)
  {
    if |a| == 0 {
      assert a + b == b;
    } else {
      DueConcat(a[1..], b);
      assert (a + b)[1..] == a[1..] + b && (a + b)[0] == a[0];
      Regroup(DueHead(a[0]), DueOf(a[1..]), DueOf(b));
    }
  }

  lemma {:induction false} RanConcat(a: seq<Entry>, b: seq<Entry>)
    ensures RanOf(a + b) == RanOf(a) + RanOf(b)
  {
    if |a| == 0 {
      assert a + b == b;
    } else {
      RanConcat(a[1..], b);
      assert (a + b)[1..] == a[1..] + b && (a + b)[0] == a[0];
      Regroup(RanHead(a[0]), RanOf(a[1..]), RanOf(b));
    }
  }

  lemma {:induction false} DueAll(b: seq<Entry>, cbs: seq<Callback>)
    requires |b| == |cbs| && forall j :: 0 <= j < |b| ==> b[j].cb == cbs[j] && b[j].fate.Waits?
    ensures DueOf(b) == cbs
  {
    if |b| > 0 {
      DueAll(b[1..], cbs[1..]);
    }
  }

  lemma {:induction false} NoneRan(b: seq<Entry>)
    requires forall j :: 0 <= j < |b| ==> !b[j].fate.RanAt?
    ensures RanOf(b) == []
  {
    if |b| > 0 {
      NoneRan(b[1..]);
    }
  }

  lemma {:induction false} NoneDue(b: seq<Entry>)
    ensures DueOf(b) == [] <==> forall j :: 0 <= j < |b| ==> !b[j].fate.Waits?
  {
    if |b| > 0 {
      NoneDue(b[1..]);
      if !b[0].fate.Waits? && DueOf(b) == [] {
        forall j | 0 <= j < |b| ensures !b[j].fate.Waits? {
          assert j > 0 ==> b[j] == b[1..][j - 1];
        }
      }
    }
  }

  lemma DueAdded(b: seq<Entry>, cbs: seq<Callback>, at: nat, skipped: nat)
    requires skipped <= |cbs|
    ensures DueOf(b + NewEntries(cbs, at, skipped)) == DueOf(b) + cbs[skipped..]
    ensures RanOf(b + NewEntries(cbs, at, skipped)) == RanOf(b)
  {
    var more := NewEntries(cbs, at, skipped);
    DueConcat(b, more);
    DueNew(cbs, at, skipped);
    RanConcat(b, more);
    NoneRan(more);
  }

  lemma DueNew(cbs: seq<Callback>, at: nat, skipped: nat)
    requires skipped <= |cbs|
    ensures DueOf(NewEntries(cbs, at, skipped)) == cbs[skipped..]
  {
    var more := NewEntries(cbs, at, skipped);
    var early, late := more[..skipped], more[skipped..];
    assert more == early + late;
    DueConcat(early, late);
    NoneDue(early);
    DueAll(late, cbs[skipped..]);
  }

  lemma {:induction false} DueTakenOut(b: seq<Entry>, id: Option<nat>, at: nat)
    ensures DueOf(TakenOut(b, id, at)) == if id.None? then [] else Without(DueOf(b), id.value)
    ensures RanOf(TakenOut(b, id, at)) == RanOf(b)
  {
    if |b| > 0 {
      DueTakenOut(b[1..], id, at);
      assert TakenOut(b, id, at)[1..] == TakenOut(b[1..], id, at);
      if id.Some? {
        WithoutConcat(DueHead(b[0]), DueOf(b[1..]), id.value);
      }
    }
  }

  /** Callbacks run in the order of adding: none before one that has run waits, and it has run earlier
      if it has run at all. */
  ghost predicate InOrder(b: seq<Entry>) {
    forall j, k :: 0 <= j < k < |b| && b[k].fate.RanAt? ==>
      !b[j].fate.Waits? && (b[j].fate.RanAt? ==> b[j].fate.at < b[k].fate.at)
  }

  /** Where the first waiting callback is. */
  function FirstWaiting(b: seq<Entry>): (k: nat)
    ensures k <= |b| && (k < |b| ==> b[k].fate.Waits?) && forall j :: 0 <= j < k ==> !b[j].fate.Waits?
  {
    if |b| == 0 || b[0].fate.Waits? then 0 else 1 + FirstWaiting(b[1..])
  }

  lemma {:induction false} FirstRunsIs(b: seq<Entry>, at: nat)
    ensures var k := FirstWaiting(b);
      FirstRuns(b, at) == if k < |b| then b[k := b[k].(fate := RanAt(at))] else b
  {
    if |b| > 0 && !b[0].fate.Waits? {
      var rest, j := b[1..], FirstWaiting(b[1..]);
      FirstRunsIs(rest, at);
      assert b == [b[0]] + rest && FirstWaiting(b) == 1 + j;
      if j < |rest| {
        UpdateBehind(b[0], rest, j, rest[j].(fate := RanAt(at)));
      }
    }
  }

  lemma UpdateBehind(x: Entry, rest: seq<Entry>, j: nat, y: Entry)
    requires j < |rest|
    ensures [x] + rest[j := y] == ([x] + rest)[1 + j := y]
  {}

  /** The first waiting callback is the one due next, and leaves the others due. */
  lemma FirstRunsAt(b: seq<Entry>, at: nat)
    requires |DueOf(b)| > 0
    ensures var k := FirstWaiting(b);
      k < |b| && FirstRuns(b, at) == b[k := b[k].(fate := RanAt(at))] && b[k].cb == DueOf(b)[0]
    ensures DueOf(FirstRuns(b, at)) == DueOf(b)[1..]
  {
    FirstRunsIs(b, at);
    NoneDue(b);
    var k := FirstWaiting(b);
    var r, x := FirstRuns(b, at), b[k].(fate := RanAt(at));
    SplitDue(b, k);
    SplitDue(r, k);
    var rest := DueOf(b[k + 1..]);
    assert r[..k] == b[..k] && r[k + 1..] == b[k + 1..] && r[k] == x;
    NoneDue(b[..k]);
    assert DueOf(b) == [b[k].cb] + rest && DueOf(r) == rest;
  }

  lemma SplitDue(b: seq<Entry>, k: nat)
    requires k < |b|
    ensures DueOf(b) == DueOf(b[..k]) + (DueHead(b[k]) + DueOf(b[k + 1..]))
    ensures RanOf(b) == RanOf(b[..k]) + (RanHead(b[k]) + RanOf(b[k + 1..]))
  {
    assert b == b[..k] + b[k..] && b[k..][1..] == b[k + 1..];
    DueConcat(b[..k], b[k..]);
    RanConcat(b[..k], b[k..]);
  }

  lemma RanFirst(b: seq<Entry>, k: nat, at: nat)
    requires k < |b| && b[k].fate.Waits? && forall j :: k < j < |b| ==> !b[j].fate.RanAt?
    ensures RanOf(b[k := b[k].(fate := RanAt(at))]) == RanOf(b) + [b[k].cb]
  {
    var r := b[k := b[k].(fate := RanAt(at))];
    SplitDue(b, k);
    SplitDue(r, k);
    assert r[..k] == b[..k] && r[k + 1..] == b[k + 1..];
    NoneRan(b[k + 1..]);
  }

  // ---------------------------------------------------------------------------
  // Every entry is true of the history

  /** Event i takes a waiting callback out of list t. */
  ghost predicate TakesOut(log: seq<Event>, i: nat, cb: Callback, t: nat) {
    && i < |log| && log[i].Did? && !log[i].op.Settle? && log[i].op.target == t
    && match log[i].op
       case Remove(_, id) => id == cb.id
       case Empty(_) => true
       case Disable(_) => true
       case Lock(_) => Replay(log[..i], t).Some? && !Replay(log[..i], t).value.remembers
       case _ => false
  }

  /** When a fate was met; the present if it was not. */
  function Until(fate: Fate, now: nat): nat {
    if fate.RanAt? || fate.OutAt? then fate.at else now
  }

  ghost predicate IsAdding(e: Event, t: nat, nth: nat, cb: Callback) {
    e.Did? && e.op.Add? && e.op.target == t && nth < |e.op.cbs| && e.op.cbs[nth] == cb
  }

  /** The callback was added where the entry says.  It ran if its call is in the history, or was taken
      out if the event that did so is; nothing took it out before. */
  ghost predicate IsTrue(x: Entry, log: seq<Event>, t: nat) {
    && x.added < |log| && IsAdding(log[x.added], t, x.nth, x.cb)
    && (x.fate.RanAt? ==> x.added < x.fate.at < |log| && log[x.fate.at].Called?
                          && log[x.fate.at].target == t && log[x.fate.at].cb == x.cb)
    && (x.fate.OutAt? ==> x.added < x.fate.at < |log| && TakesOut(log, x.fate.at, x.cb, t))
    && (!x.fate.PassedBy? ==> forall i :: x.added < i < Until(x.fate, |log|) ==> !TakesOut(log, i, x.cb, t))
  }

  ghost predicate AllTrue(b: seq<Entry>, log: seq<Event>, t: nat) {
    forall k :: 0 <= k < |b| ==> IsTrue(b[k], log, t)
  }

  /** Every call in the history is that of an entry. */
  ghost predicate CallsBooked(b: seq<Entry>, log: seq<Event>, t: nat) {
    forall i :: 0 <= i < |log| && log[i].Called? && log[i].target == t ==> Booked(b, i)
  }

  ghost predicate Booked(b: seq<Entry>, i: nat) {
    exists k :: 0 <= k < |b| && b[k].fate == RanAt(i)
  }

  /** Entries are in the order of adding. */
  ghost predicate AddedInOrder(b: seq<Entry>) {
    forall j, k :: 0 <= j < k < |b| ==>
      b[j].added < b[k].added || (b[j].added == b[k].added && b[j].nth < b[k].nth)
  }

  lemma TakesOutStable(log: seq<Event>, e: Event, cb: Callback, t: nat)
    ensures forall i :: 0 <= i < |log| ==> (TakesOut(log + [e], i, cb, t) <==> TakesOut(log, i, cb, t))
  {
    forall i | 0 <= i < |log| ensures TakesOut(log + [e], i, cb, t) <==> TakesOut(log, i, cb, t) {
      assert (log + [e])[..i] == log[..i] && (log + [e])[i] == log[i];
    }
  }

  /** An entry whose fate stays. */
  lemma TrueStays(x: Entry, log: seq<Event>, e: Event, t: nat)
    requires IsTrue(x, log, t) && (x.fate.Waits? ==> !TakesOut(log + [e], |log|, x.cb, t))
    ensures IsTrue(x, log + [e], t)
  {
    TakesOutStable(log, e, x.cb, t);
  }

  /** An entry whose fate is met now. */
  lemma TrueMeets(x: Entry, log: seq<Event>, e: Event, t: nat, fate: Fate)
    requires IsTrue(x, log, t) && x.fate.Waits?
    requires || (fate == RanAt(|log|) && e.Called? && e.target == t && e.cb == x.cb)
             || (fate == OutAt(|log|) && TakesOut(log + [e], |log|, x.cb, t))
    ensures IsTrue(x.(fate := fate), log + [e], t)
  {
    TakesOutStable(log, e, x.cb, t);
  }

  lemma TrueTakenOut(b: seq<Entry>, log: seq<Event>, e: Event, t: nat, id: Option<nat>)
    requires AllTrue(b, log, t)
    requires forall cb :: TakesOut(log + [e], |log|, cb, t) <==> id.None? || cb.id == id.value
    ensures AllTrue(TakenOut(b, id, |log|), log + [e], t)
  {
    var r := TakenOut(b, id, |log|);
    forall k | 0 <= k < |r| ensures IsTrue(r[k], log + [e], t) {
      if b[k].fate.Waits? && (id.None? || b[k].cb.id == id.value) {
        TrueMeets(b[k], log, e, t, OutAt(|log|));
      } else {
        TrueStays(b[k], log, e, t);
      }
    }
  }

  lemma TrueAdded(b: seq<Entry>, log: seq<Event>, cbs: seq<Callback>, t: nat, skipped: nat)
    requires AllTrue(b, log, t)
    ensures AllTrue(b + NewEntries(cbs, |log|, skipped), log + [Did(Add(t, cbs))], t)
  {
    var e, r := Did(Add(t, cbs)), b + NewEntries(cbs, |log|, skipped);
    forall k | 0 <= k < |r| ensures IsTrue(r[k], log + [e], t) {
      if k < |b| {
        TrueStays(b[k], log, e, t);
      }
    }
  }

  lemma TrueUnchanged(b: seq<Entry>, log: seq<Event>, e: Event, t: nat)
    requires AllTrue(b, log, t) && forall cb :: !TakesOut(log + [e], |log|, cb, t)
    ensures AllTrue(b, log + [e], t)
  {
    forall k | 0 <= k < |b| ensures IsTrue(b[k], log + [e], t) {
      TrueStays(b[k], log, e, t);
    }
  }

  lemma TrueCalled(b: seq<Entry>, log: seq<Event>, e: Event, t: nat)
    requires AllTrue(b, log, t) && e.Called? && e.target == t && |DueOf(b)| > 0 && e.cb == DueOf(b)[0]
    ensures AllTrue(FirstRuns(b, |log|), log + [e], t)
  {
    FirstRunsAt(b, |log|);
    var r := FirstRuns(b, |log|);
    forall k | 0 <= k < |r| ensures IsTrue(r[k], log + [e], t) {
      if k == FirstWaiting(b) {
        TrueMeets(b[k], log, e, t, RanAt(|log|));
      } else {
        TrueStays(b[k], log, e, t);
      }
    }
  }

  /** The book after one event is true of the longer history. */
  lemma TrueNext(b: seq<Entry>, q: Queue, log: seq<Event>, e: Event, t: nat)
    requires AllTrue(b, log, t) && Replay(log, t) == Some(q) && DueOf(b) == q.due && After(q, e, t).Some?
    ensures AllTrue(NextBook(b, q, e, |log|, t), log + [e], t)
  {
    assert (log + [e])[..|log|] == log;
    if e.Did? && !e.op.Settle? && e.op.target == t {
      match e.op
      case Add(_, cbs) =>
        if q.live {
          TrueAdded(b, log, cbs, t, Skipped(q, |cbs|));
        } else {
          TrueUnchanged(b, log, e, t);
        }
      case Remove(_, id) => TrueTakenOut(b, log, e, t, Some(id));
      case Empty(_) => TrueTakenOut(b, log, e, t, None);
      case Disable(_) => TrueTakenOut(b, log, e, t, None);
      case Lock(_) =>
        if q.remembers {
          TrueUnchanged(b, log, e, t);
        } else {
          TrueTakenOut(b, log, e, t, None);
        }
      case Fire(_, _) => TrueUnchanged(b, log, e, t);
    } else if e.Called? && e.target == t {
      TrueCalled(b, log, e, t);
    } else {
      TrueUnchanged(b, log, e, t);
    }
  }

  // ---------------------------------------------------------------------------
  // What holds of the book

  /** Callbacks list t has called, in order. */
  ghost function Ran(log: seq<Event>, t: nat): seq<Callback> {
    if |log| == 0 then []
    else
      var e := log[|log| - 1];
      Ran(log[..|log| - 1], t) + if e.Called? && e.target == t then [e.cb] else []
  }

  /** The book agrees with the queue, and with the history in every respect. */
  ghost predicate Balanced(log: seq<Event>, t: nat) {
    var b, q := Book(log, t), Replay(log, t);
    && q.Some? && DueOf(b) == q.value.due && RanOf(b) == Ran(log, t)
    && AllTrue(b, log, t) && InOrder(b) && AddedInOrder(b) && CallsBooked(b, log, t)
    && CallsGet(log, t, q.value.data)
  }

  /** All calls were given this data. */
  ghost predicate CallsGet(log: seq<Event>, t: nat, data: Option<Data>) {
    forall i :: 0 <= i < |log| && log[i].Called? && log[i].target == t ==> Some(log[i].data) == data
  }

  lemma DueNext(b: seq<Entry>, q: Queue, e: Event, at: nat, t: nat)
    requires DueOf(b) == q.due && After(q, e, t).Some?
    ensures DueOf(NextBook(b, q, e, at, t)) == After(q, e, t).value.due
  {
    if e.Did? && !e.op.Settle? && e.op.target == t {
      match e.op
      case Add(_, cbs) => DueAdded(b, cbs, at, Skipped(q, |cbs|));
      case Remove(_, id) => DueTakenOut(b, Some(id), at);
      case Fire(_, _) =>
      case _ => DueTakenOut(b, None, at);
    } else if e.Called? && e.target == t {
      FirstRunsAt(b, at);
    }
  }

  lemma RanNext(b: seq<Entry>, q: Queue, e: Event, at: nat, t: nat)
    requires DueOf(b) == q.due && After(q, e, t).Some? && InOrder(b)
    ensures RanOf(NextBook(b, q, e, at, t)) == RanOf(b) + if e.Called? && e.target == t then [e.cb] else []
  {
    if e.Did? && !e.op.Settle? && e.op.target == t {
      match e.op
      case Add(_, cbs) => DueAdded(b, cbs, at, Skipped(q, |cbs|));
      case Remove(_, id) => DueTakenOut(b, Some(id), at);
      case Fire(_, _) =>
      case _ => DueTakenOut(b, None, at);
    } else if e.Called? && e.target == t {
      FirstRunsAt(b, at);
      RanFirst(b, FirstWaiting(b), at);
    }
  }

  /** Fates already met are before this event. */
  ghost predicate MetBefore(b: seq<Entry>, at: nat) {
    forall k :: 0 <= k < |b| ==> b[k].added < at && (b[k].fate.RanAt? ==> b[k].fate.at < at)
  }

  /** The first waiting entry can run next. */
  lemma OrderUpdate(b: seq<Entry>, f: nat, at: nat)
    requires f < |b| && b[f].fate.Waits? && (forall j :: 0 <= j < f ==> !b[j].fate.Waits?)
    requires InOrder(b) && MetBefore(b, at)
    ensures InOrder(b[f := b[f].(fate := RanAt(at))])
  {
    var r := b[f := b[f].(fate := RanAt(at))];
    forall j, k | 0 <= j < k < |r| && r[k].fate.RanAt?
      ensures !r[j].fate.Waits? && (r[j].fate.RanAt? ==> r[j].fate.at < r[k].fate.at)
    {
      if k != f {
        assert b[k].fate.RanAt? && j != f;
      }
    }
  }

  lemma OrderCalled(b: seq<Entry>, at: nat)
    requires |DueOf(b)| > 0 && InOrder(b) && AddedInOrder(b) && MetBefore(b, at)
    ensures InOrder(FirstRuns(b, at)) && AddedInOrder(FirstRuns(b, at))
  {
    FirstRunsAt(b, at);
    OrderUpdate(b, FirstWaiting(b), at);
  }

  lemma OrderTakenOut(b: seq<Entry>, id: Option<nat>, at: nat)
    requires InOrder(b) && AddedInOrder(b)
    ensures InOrder(TakenOut(b, id, at)) && AddedInOrder(TakenOut(b, id, at))
  {}

  lemma OrderAdded(b: seq<Entry>, cbs: seq<Callback>, at: nat, skipped: nat)
    requires InOrder(b) && AddedInOrder(b) && MetBefore(b, at)
    ensures InOrder(b + NewEntries(cbs, at, skipped)) && AddedInOrder(b + NewEntries(cbs, at, skipped))
  {}

  lemma OrderNext(b: seq<Entry>, q: Queue, e: Event, at: nat, t: nat)
    requires DueOf(b) == q.due && After(q, e, t).Some? && InOrder(b) && AddedInOrder(b) && MetBefore(b, at)
    ensures InOrder(NextBook(b, q, e, at, t)) && AddedInOrder(NextBook(b, q, e, at, t))
  {
    if e.Did? && !e.op.Settle? && e.op.target == t {
      match e.op
      case Add(_, cbs) => OrderAdded(b, cbs, at, Skipped(q, |cbs|));
      case Remove(_, id) => OrderTakenOut(b, Some(id), at);
      case Fire(_, _) =>
      case _ => OrderTakenOut(b, None, at);
    } else if e.Called? && e.target == t {
      OrderCalled(b, at);
    }
  }

  /** Calls stay booked: an entry that ran keeps its fate. */
  lemma BookedNext(b: seq<Entry>, q: Queue, log: seq<Event>, e: Event, t: nat)
    requires DueOf(b) == q.due && After(q, e, t).Some? && CallsBooked(b, log, t)
    ensures CallsBooked(NextBook(b, q, e, |log|, t), log + [e], t)
  {
    var r, more := NextBook(b, q, e, |log|, t), log + [e];
    if e.Called? && e.target == t {
      FirstRunsAt(b, |log|);
    }
    forall i | 0 <= i < |more| && more[i].Called? && more[i].target == t ensures Booked(r, i) {
      if i < |log| {
        assert log[i] == more[i];
        assert Booked(b, i);
        var k :| 0 <= k < |b| && b[k].fate == RanAt(i);
        assert r[k].fate == RanAt(i);
      } else {
        assert r[FirstWaiting(b)].fate == RanAt(i);
      }
    }
  }

  lemma BalancedNext(log: seq<Event>, e: Event, t: nat)
    requires Balanced(log, t) && Replay(log + [e], t).Some?
    ensures Balanced(log + [e], t)
  {
    var b, q := Book(log, t), Replay(log, t).value;
    assert (log + [e])[..|log|] == log;
    ReplayOne(log, e, t);
    DueNext(b, q, e, |log|, t);
    RanNext(b, q, e, |log|, t);
    TrueNext(b, q, log, e, t);
    OrderNext(b, q, e, |log|, t);
    BookedNext(b, q, log, e, t);
    DataNext(log, e, t);
  }

  lemma DataNext(log: seq<Event>, e: Event, t: nat)
    requires Replay(log, t).Some? && Replay(log + [e], t).Some? && CallsGet(log, t, Replay(log, t).value.data)
    ensures CallsGet(log + [e], t, Replay(log + [e], t).value.data)
  {
    ReplayOne(log, e, t);
    forall i | 0 <= i < |log| ensures (log + [e])[i] == log[i] {}
  }

  /** Every history that can be replayed has a balanced book. */
  lemma {:induction false} BookBalances(log: seq<Event>, t: nat)
    requires Replay(log, t).Some?
    ensures Balanced(log, t)
  {
    if |log| > 0 {
      var n := |log| - 1;
      BookBalances(log[..n], t);
      assert log == log[..n] + [log[n]];
      BalancedNext(log[..n], log[n], t);
    }
  }

  /** Every callback added has run, was taken out before its turn, or was passed by. */
  ghost predicate AllMet(b: seq<Entry>) {
    forall k :: 0 <= k < |b| ==> !b[k].fate.Waits?
  }

  // ---------------------------------------------------------------------------
  // Every run

  /** In every run of every program, on every "once memory" list, each callback added has exactly one
      fate: it has run, once, in the order of adding and with the data of the firing; or an event, the
      first that could, took it out before its turn; or its place was passed when it was added; or it
      waits.  When the program has ended, none waits on a list that remembers its firing. */
  lemma EveryFate(options: seq<Options>, program: seq<Op>, steps: nat, t: nat)
    requires t < |options| && OnceMemory(options[t])
    ensures var m := Run(Start(options, program), steps);
      && Balanced(m.log, t)
      && (|m.control| == 0 && Replay(m.log, t).value.remembers ==> AllMet(Book(m.log, t)))
  {
    var m := Run(Start(options, program), steps);
    RunFollows(options, program, steps, t);
    BookBalances(m.log, t);
    if |m.control| == 0 {
      NoneDue(Book(m.log, t));
    }
  }

  /** The list is there after this history. */
  ghost predicate IsThere(log: seq<Event>, t: nat) {
    Replay(log, t).Some? && Replay(log, t).value.live
  }

  /** The data of the first call of fire that finds list t there. */
  ghost function FirstFire(log: seq<Event>, t: nat): Option<Data> {
    if |log| == 0 then None
    else
      var n := |log| - 1;
      var before, e := FirstFire(log[..n], t), log[n];
      if before.None? && e.Did? && e.op.Fire? && e.op.target == t && IsThere(log[..n], t) then Some(e.op.data)
      else before
  }

  /** That is the data all calls are given. */
  lemma {:induction false} DataIsFirstFire(log: seq<Event>, t: nat)
    requires Replay(log, t).Some?
    ensures Replay(log, t).value.data == FirstFire(log, t)
  {
    if |log| > 0 {
      DataIsFirstFire(log[..|log| - 1], t);
    }
  }

  // ---------------------------------------------------------------------------
  // Lists that are only added to and fired

  /** Callbacks added to list t, in order. */
  ghost function Added(log: seq<Event>, t: nat): seq<Callback> {
    if |log| == 0 then []
    else
      var e := log[|log| - 1];
      Added(log[..|log| - 1], t) + if e.Did? && e.op.Add? && e.op.target == t then e.op.cbs else []
  }

  /** Nothing but adding and firing happens to list t. */
  ghost predicate OnlyAddsAndFires(log: seq<Event>, t: nat) {
    forall i :: 0 <= i < |log| && log[i].Did? ==> Harmless(log[i].op, t)
  }

  ghost predicate Harmless(op: Op, t: nat) {
    op.Settle? || op.target != t || op.Add? || op.Fire?
  }

  lemma HarmlessKeeps(q: Queue, e: Event, t: nat, ran: seq<Callback>)
    requires q.live && q.skip == 0 && (q.data.Some? ==> q.remembers) && After(q, e, t).Some?
    requires e.Did? ==> Harmless(e.op, t)
    ensures var r := After(q, e, t).value;
      r.live && r.skip == 0 && (r.data.Some? ==> r.remembers)
    ensures var r := After(q, e, t).value;
      (ran + if e.Called? && e.target == t then [e.cb] else []) + r.due
      == (ran + q.due) + if e.Did? && e.op.Add? && e.op.target == t then e.op.cbs else []
  {
    if e.Called? && e.target == t {
      assert ran + q.due == (ran + [e.cb]) + q.due[1..];
    } else if e.Did? && e.op.Add? && e.op.target == t {
      assert e.op.cbs[0..] == e.op.cbs;
      Regroup(ran, q.due, e.op.cbs);
    }
  }

  /** Called and still due together are what was added, in that order. */
  lemma {:induction false} Conservation(log: seq<Event>, t: nat)
    requires OnlyAddsAndFires(log, t) && Replay(log, t).Some?
    ensures var q := Replay(log, t).value;
      && q.live && q.skip == 0 && (q.data.Some? ==> q.remembers)
      && Ran(log, t) + q.due == Added(log, t)
  {
    if |log| > 0 {
      var n := |log| - 1;
      Conservation(log[..n], t);
      assert log[n].Did? ==> Harmless(log[n].op, t);
      HarmlessKeeps(Replay(log[..n], t).value, log[n], t, Ran(log[..n], t));
    }
  }

  /** Every callback added to a "once memory" list that is only added to and fired, before, during or
      after its firing, has run exactly once when the program ends, in the order of adding, with the
      data of the first firing; none has if the list was never fired. */
  lemma ExactlyOnce(options: seq<Options>, program: seq<Op>, steps: nat, t: nat)
    requires t < |options| && OnceMemory(options[t])
    requires OnlyAddsAndFires(Run(Start(options, program), steps).log, t)
    requires |Run(Start(options, program), steps).control| == 0
    ensures var m := Run(Start(options, program), steps);
      && Ran(m.log, t) == (if FirstFire(m.log, t).Some? then Added(m.log, t) else [])
      && CallsGet(m.log, t, FirstFire(m.log, t))
  {
    var m := Run(Start(options, program), steps);
    RunFollows(options, program, steps, t);
    BookBalances(m.log, t);
    DataIsFirstFire(m.log, t);
    Conservation(m.log, t);
    if FirstFire(m.log, t).None? {
      NoCalls(m.log, t);
    }
  }

  lemma {:induction false} NoCalls(log: seq<Event>, t: nat)
    requires forall i :: 0 <= i < |log| && log[i].Called? ==> log[i].target != t
    ensures Ran(log, t) == []
  {
    if |log| > 0 {
      NoCalls(log[..|log| - 1], t);
    }
  }
}
