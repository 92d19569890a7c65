/** When the callbacks added to an emptied "once memory" list are called: exactly if the list is fired,
    and the loop has not passed their places. */
module CallbackFirings {
  import opened CallbackLists
  import opened CallbackQueues
  import opened CallbackFates
  import opened CallbackEmptying

  // ---------------------------------------------------------------------------
  // The queue in the course of a history

  /** The queue after the first n events. */
  ghost function QueueAt(log: seq<Event>, t: nat, n: nat): Option<Queue>
    requires n <= |log|
  {
    if n == 0 then Some(NewQueue())
    else if QueueAt(log, t, n - 1).None? then None
    else After(QueueAt(log, t, n - 1).value, log[n - 1], t)
  }

  lemma {:induction false} QueueAtIs(log: seq<Event>, t: nat, n: nat)
    requires n <= |log|
    ensures QueueAt(log, t, n) == Replay(log[..n], t)
  {
    if n > 0 {
      QueueAtIs(log, t, n - 1);
      assert log[..n][..n - 1] == log[..n - 1];
    }
  }

  /** The history can be replayed up to here. */
  ghost predicate Replays(log: seq<Event>, t: nat, n: nat) {
    n <= |log| && QueueAt(log, t, n).Some?
  }

  /** The queue of a history that can be replayed. */
  ghost function At(log: seq<Event>, t: nat, n: nat): Queue
    requires Replays(log, t, n)
  {
    QueueAt(log, t, n).value
  }

  lemma {:induction false} ReplaysBefore(log: seq<Event>, t: nat, i: nat, n: nat)
    requires Replays(log, t, n) && i <= n
    ensures Replays(log, t, i)
    decreases n
  {
    if i < n {
      ReplaysBefore(log, t, i, n - 1);
    }
  }

  // ---------------------------------------------------------------------------
  // Firings

  /** A firing of list t ends at or after event i. */
  ghost predicate EndsFrom(log: seq<Event>, t: nat, i: nat) {
    exists f :: i <= f < |log| && log[f] == Ended(t)
  }

  /** A firing that is over has ended. */
  lemma {:induction false} FiringEnds(log: seq<Event>, t: nat, i: nat, n: nat)
    requires i <= n && Replays(log, t, n) && !At(log, t, n).firing
    requires Replays(log, t, i) && At(log, t, i).firing
    ensures EndsFrom(log, t, i)
    decreases n
  {
    if log[n - 1] != Ended(t) {
      FiringEnds(log, t, i, n - 1);
    }
  }

  /** No firing of list t ends between events i and n. */
  ghost predicate NoEnd(log: seq<Event>, t: nat, i: nat, n: nat) {
    forall f :: i <= f < n && f < |log| ==> log[f] != Ended(t)
  }

  /** Nothing but the end of it stops a firing. */
  lemma {:induction false} FiringLasts(log: seq<Event>, t: nat, i: nat, n: nat)
    requires i <= n && Replays(log, t, n) && NoEnd(log, t, i, n) && Replays(log, t, i) && At(log, t, i).firing
    ensures At(log, t, n).firing
    decreases n
  {
    if i < n {
      ReplaysBefore(log, t, n - 1, n);
      FiringLasts(log, t, i, n - 1);
    }
  }

  lemma {:induction false} DataStays(log: seq<Event>, t: nat, i: nat, n: nat)
    requires i <= n && Replays(log, t, n)
    ensures Replays(log, t, i) && (At(log, t, i).data.Some? ==> At(log, t, n).data.Some?)
    decreases n
  {
    if i < n {
      DataStays(log, t, i, n - 1);
    }
  }

  /** The one firing is over, and the data forgotten. */
  ghost predicate Spent(q: Queue) {
    q.data.Some? && !q.firing && !q.remembers
  }

  lemma {:induction false} SpentStays(log: seq<Event>, t: nat, i: nat, n: nat)
    requires i <= n && Replays(log, t, n) && Replays(log, t, i) && Spent(At(log, t, i))
    ensures Spent(At(log, t, n)) && NoEnd(log, t, i, n)
    decreases n
  {
    if i < n {
      ReplaysBefore(log, t, n - 1, n);
      SpentStays(log, t, i, n - 1);
    }
  }

  /** The data is that of a call of fire, which starts the firing. */
  lemma {:induction false} FiredSince(log: seq<Event>, t: nat, i: nat, n: nat) returns (k: nat)
    requires i <= n && Replays(log, t, n) && At(log, t, n).data.Some?
    requires Replays(log, t, i) && At(log, t, i).data.None?
    ensures i <= k < n && log[k].Did? && log[k].op.Fire? && Replays(log, t, k + 1) && At(log, t, k + 1).firing
    decreases n
  {
    ReplaysBefore(log, t, n - 1, n);
    if At(log, t, n - 1).data.Some? {
      k := FiredSince(log, t, i, n - 1);
    } else {
      k := n - 1;
    }
  }

  lemma {:induction false} RemembersLasts(log: seq<Event>, t: nat, e: nat, n: nat)
    requires e < n && Replays(log, t, n) && log[e] == Did(Empty(t)) && Quiet(log, t, e, n)
    requires Replays(log, t, e) && At(log, t, e).remembers
    ensures At(log, t, n).remembers
    decreases n
  {
    ReplaysBefore(log, t, n - 1, n);
    if e < n - 1 {
      RemembersLasts(log, t, e, n - 1);
      assert !Clears(log, n - 1, t);
    }
  }

  lemma {:induction false} LiveSinceEmpty(log: seq<Event>, t: nat, e: nat, n: nat)
    requires e < n && Replays(log, t, n) && log[e] == Did(Empty(t)) && Quiet(log, t, e, n)
    ensures At(log, t, n).live
    decreases n
  {
    ReplaysBefore(log, t, n - 1, n);
    if e < n - 1 {
      LiveSinceEmpty(log, t, e, n - 1);
      QueueAtIs(log, t, n - 1);
      assert !Clears(log, n - 1, t);
    }
  }

  // ---------------------------------------------------------------------------
  // When a firing follows

  /** A history that can be replayed, at whose end list t is not being fired, which was emptied at event
      e and then, before a firing ended, added to at event a. */
  ghost predicate EmptiedThenAdded(log: seq<Event>, t: nat, e: nat, a: nat, j: nat) {
    && Replays(log, t, |log|) && !At(log, t, |log|).firing
    && e < a < |log| && log[e] == Did(Empty(t)) && Quiet(log, t, e, a) && IsAdd(log[a], t, j)
  }

  lemma EndsIfFiring(log: seq<Event>, t: nat, e: nat, a: nat, j: nat, i: nat)
    requires EmptiedThenAdded(log, t, e, a, j) && e <= i <= a && Replays(log, t, i) && At(log, t, i).firing
    ensures EndsFrom(log, t, a)
  {
    ReplaysBefore(log, t, a, |log|);
    FiringLasts(log, t, i, a);
    FiringEnds(log, t, a, |log|);
  }

  /** A list that remembers its firing is fired when callbacks are added. */
  lemma EndsIfRemembers(log: seq<Event>, t: nat, e: nat, a: nat, j: nat)
    requires EmptiedThenAdded(log, t, e, a, j) && Replays(log, t, e) && At(log, t, e).remembers
    ensures EndsFrom(log, t, a)
  {
    ReplaysBefore(log, t, a, |log|);
    ReplaysBefore(log, t, a + 1, |log|);
    RemembersLasts(log, t, e, a);
    LiveSinceEmpty(log, t, e, a);
    FiringEnds(log, t, a + 1, |log|);
  }

  lemma EndsIfFired(log: seq<Event>, t: nat, e: nat, a: nat, j: nat)
    requires EmptiedThenAdded(log, t, e, a, j) && At(log, t, |log|).data.Some?
    requires Replays(log, t, e) && At(log, t, e).data.None?
    ensures EndsFrom(log, t, a)
  {
    var k := FiredSince(log, t, e, |log|);
    if k < a {
      EndsIfFiring(log, t, e, a, j, k + 1);
    } else {
      FiringEnds(log, t, k + 1, |log|);
    }
  }

  lemma EndsOnlyIfFired(log: seq<Event>, t: nat, f: nat)
    requires Replays(log, t, |log|) && f < |log| && log[f] == Ended(t)
    ensures At(log, t, |log|).data.Some?
  {
    ReplaysBefore(log, t, f + 1, |log|);
    DataStays(log, t, f + 1, |log|);
  }

  /** A list emptied at event e is fired afterwards: it is being fired, or remembers its firing, or has
      not been fired yet and is in the end. */
  ghost predicate FiresSince(log: seq<Event>, t: nat, e: nat)
    requires e <= |log|
  {
    Replay(log[..e], t).Some? &&
    var q := Replay(log[..e], t).value; q.firing || q.remembers || (q.data.None? && FirstFire(log, t).Some?)
  }

  lemma EndsIff(log: seq<Event>, t: nat, e: nat, a: nat, j: nat, q: Queue)
    requires EmptiedThenAdded(log, t, e, a, j) && Replays(log, t, e) && q == At(log, t, e)
    ensures EndsFrom(log, t, a) <==> q.firing || q.remembers || (q.data.None? && At(log, t, |log|).data.Some?)
  {
    if q.firing {
      EndsIfFiring(log, t, e, a, j, e);
    } else if q.remembers {
      EndsIfRemembers(log, t, e, a, j);
    } else if q.data.Some? {
      SpentStays(log, t, e, |log|);
    } else if At(log, t, |log|).data.Some? {
      EndsIfFired(log, t, e, a, j);
    } else if EndsFrom(log, t, a) {
      var f :| a <= f < |log| && log[f] == Ended(t);
      EndsOnlyIfFired(log, t, f);
    }
  }

  lemma EndsIffFires(log: seq<Event>, t: nat, e: nat, a: nat, j: nat)
    requires EmptiedThenAdded(log, t, e, a, j)
    ensures EndsFrom(log, t, a) <==> FiresSince(log, t, e)
  {
    assert log[..|log|] == log;
    QueueAtIs(log, t, |log|);
    QueueAtIs(log, t, e);
    DataIsFirstFire(log, t);
    ReplaysBefore(log, t, e, |log|);
    EndsIff(log, t, e, a, j, At(log, t, e));
  }

  // ---------------------------------------------------------------------------
  // Which callbacks are called

  /** A callback that runs does so in a firing, which ends. */
  lemma RanInFiring(log: seq<Event>, t: nat, r: nat)
    requires Replays(log, t, |log|) && !At(log, t, |log|).firing
    requires r < |log| && log[r].Called? && log[r].target == t
    ensures EndsFrom(log, t, r)
  {
    ReplaysBefore(log, t, r + 1, |log|);
    ReplaysBefore(log, t, r, |log|);
    FiringEnds(log, t, r, |log|);
  }

  /** The jth callback added at event a has been called if and only if its place was not passed and the
      list is fired after it was emptied. */
  ghost predicate CalledIff(log: seq<Event>, t: nat, e: nat, a: nat, j: nat)
    requires e < a < |log|
  {
    && Replay(log[..e], t).Some?
    && RunsIff(Book(log, t), |Book(log[..a], t)| + j, IsBehind(log, t, e, a, j) && FiresSince(log, t, e))
  }

  lemma CalledIfEnds(log: seq<Event>, t: nat, e: nat, a: nat, j: nat)
    requires Replay(log, t).Some? && EmptiedThenAdded(log, t, e, a, j) && EndsFrom(log, t, a)
    requires NeverOut(log, t, a, log[a].op.cbs[j])
    ensures CalledExactly(log, t, e, a, j)
  {
    var f :| a <= f < |log| && log[f] == Ended(t);
    CalledAfterEmptyIn(log, t, e, a, j, f);
  }

  lemma NotRunUnlessEnds(log: seq<Event>, t: nat, e: nat, a: nat, j: nat, k: nat)
    requires EmptiedThenAdded(log, t, e, a, j) && AllTrue(Book(log, t), log, t)
    requires k < |Book(log, t)| && Book(log, t)[k].added == a && Book(log, t)[k].fate.RanAt?
    ensures EndsFrom(log, t, a)
  {
    RanInFiring(log, t, Book(log, t)[k].fate.at);
  }

  lemma CalledIffIn(log: seq<Event>, t: nat, e: nat, a: nat, j: nat)
    requires Replay(log, t).Some? && EmptiedThenAdded(log, t, e, a, j) && NeverOut(log, t, a, log[a].op.cbs[j])
    ensures CalledIff(log, t, e, a, j)
  {
    AddedAfterEmptyIn(log, t, e, a, j);
    BookBalances(log, t);
    EndsIffFires(log, t, e, a, j);
    if EndsFrom(log, t, a) {
      CalledIfEnds(log, t, e, a, j);
    } else if Book(log, t)[|Book(log[..a], t)| + j].fate.RanAt? {
      NotRunUnlessEnds(log, t, e, a, j, |Book(log[..a], t)| + j);
    }
  }

  lemma NotFiringAtEnd(options: seq<Options>, program: seq<Op>, steps: nat, t: nat)
    requires t < |options| && OnceMemory(options[t]) && |Run(Start(options, program), steps).control| == 0
    ensures var log := Run(Start(options, program), steps).log;
      Replay(log, t).Some? && Replays(log, t, |log|) && !At(log, t, |log|).firing
  {
    var log := Run(Start(options, program), steps).log;
    RunFollows(options, program, steps, t);
    assert log[..|log|] == log;
    QueueAtIs(log, t, |log|);
  }

  /** At the end of every program that ends, whether the list had been disabled or not: a callback added
      after empty, before a firing ended, and never taken out again, has been called if and only if its
      place was not passed and the list is fired after it was emptied. */
  lemma CalledExactlyIf(options: seq<Options>, program: seq<Op>, steps: nat, t: nat, e: nat, a: nat, j: nat)
    requires t < |options| && OnceMemory(options[t])
    requires var m := Run(Start(options, program), steps); var log := m.log;
      && e < a < |log| && log[e] == Did(Empty(t)) && Quiet(log, t, e, a) && IsAdd(log[a], t, j)
      && |m.control| == 0 && NeverOut(log, t, a, log[a].op.cbs[j])
    ensures CalledIff(Run(Start(options, program), steps).log, t, e, a, j)
  {
    NotFiringAtEnd(options, program, steps, t);
    CalledIffIn(Run(Start(options, program), steps).log, t, e, a, j);
  }
}
