/** What a password change does: the database's key is that of the last change whose statement succeeded,
    and a change whose steps succeed leaves its new key in the database and in store. */
module KeyChanges {
  import opened Blocking

  // ---------------------------------------------------------------------------
  // The keys, from the moves

  /** The key of the last rekey statement that succeeded; the first key if there was none. */
  ghost function LastKey(s: State, moves: Schedule): Key
    decreases |moves|
  {
    if |moves| == 0 then s.dbKey
    else
      var n := |moves| - 1;
      var before, t, a := Run(s, moves[..n]), moves[n].0, moves[n].1;
      if t < |before.locals| && before.locals[t].pc.Changing? && a == Proceed(true) then before.locals[t].pc.newKey
      else LastKey(s, moves[..n])
  }

  /** The last key that was stored. */
  ghost function LastStored(s: State, moves: Schedule): Key
    decreases |moves|
  {
    if |moves| == 0 then s.password
    else
      var n := |moves| - 1;
      var before, t := Run(s, moves[..n]), moves[n].0;
      if t < |before.locals| && before.locals[t].pc.Rekeyed? then before.locals[t].pc.newKey
      else LastStored(s, moves[..n])
  }

  /** In every run of any threads, from any state. */
  lemma {:induction false} KeysAreLast(s: State, moves: Schedule)
    ensures Run(s, moves).dbKey == LastKey(s, moves) && Run(s, moves).password == LastStored(s, moves)
    decreases |moves|
  {
    if |moves| > 0 {
      KeysAreLast(s, moves[..|moves| - 1]);
    }
  }

  // ---------------------------------------------------------------------------
  // A change that succeeds

  /** How many of the moves are thread t's. */
  ghost function MovesOf(moves: Schedule, t: nat): nat
    decreases |moves|
  {
    if |moves| == 0 then 0 else MovesOf(moves[..|moves| - 1], t) + if moves[|moves| - 1].0 == t then 1 else 0
  }

  /** Every step of thread t turns out well. */
  ghost predicate Succeeds(moves: Schedule, t: nat) {
    forall i :: 0 <= i < |moves| && moves[i].0 == t ==> moves[i].1 == Proceed(true)
  }

  /** Where a change to key k is after j steps of its thread. */
  ghost predicate ChangeAt(s: State, t: nat, k: Key, j: nat)
    requires t < |s.locals|
  {
    var pc := s.locals[t].pc;
    if j == 0 then pc == Blocked(k)
    else if j == 1 then pc == Pc.Changing(k)
    else if j == 2 then pc == Rekeyed(k) && s.dbKey == k
    else pc == Finishing && s.dbKey == s.password == k
  }

  lemma OwnStep(s: State, t: nat, k: Key, j: nat)
    requires t < |s.locals| && ChangeAt(s, t, k, j) && j < 3
    ensures ChangeAt(Step(s, t, Proceed(true)), t, k, j + 1)
  {}

  /** No other thread touches the keys while the write lock is taken. */
  lemma OtherStep(s: State, t: nat, u: nat, a: Action, k: Key, j: nat)
    requires Inv(s) && t < |s.locals| && u < |s.locals| && u != t && ChangeAt(s, t, k, j) && InChange(s.locals[t].pc)
    ensures ChangeAt(Step(s, u, a), t, k, j) && InChange(Step(s, u, a).locals[t].pc)
  {
    assert LocalOk(s, t) && LocalOk(s, u);
    StepFrame(s, u, a);
  }

  lemma {:induction false} ChangeRuns(s: State, t: nat, k: Key, more: Schedule)
    requires Inv(s) && t < |s.locals| && s.locals[t].pc == Blocked(k) && Succeeds(more, t) && MovesOf(more, t) <= 3
    ensures var r := Run(s, more);
      Inv(r) && ChangeAt(r, t, k, MovesOf(more, t)) && InChange(r.locals[t].pc)
    decreases |more|
  {
    if |more| > 0 {
      var n := |more| - 1;
      var before, u, a := Run(s, more[..n]), more[n].0, more[n].1;
      assert Succeeds(more[..n], t) by {
        forall i | 0 <= i < n && more[..n][i].0 == t ensures more[..n][i].1 == Proceed(true) {
          assert more[i] == more[..n][i];
        }
      }
      ChangeRuns(s, t, k, more[..n]);
      if u == t {
        assert a == Proceed(true);
        OwnStep(before, t, k, MovesOf(more[..n], t));
        StepKeeps(before, t, a);
      } else if u < |before.locals| {
        OtherStep(before, t, u, a, k, MovesOf(more[..n], t));
        StepKeeps(before, u, a);
      }
    }
  }

  /** In every run: once a thread has blocked the others, and its connection, its statement and its store have
      succeeded, with any steps of other threads in between, the database and the store have the new key. */
  lemma ChangeTakesEffect(n: nat, key: Key, moves: Schedule, more: Schedule, t: nat, k: Key)
    requires t < n && Run(Start(n, key), moves).locals[t].pc == Blocked(k)
    requires Succeeds(more, t) && MovesOf(more, t) == 3
    ensures var r := Run(Run(Start(n, key), moves), more);
      r.locals[t].pc == Finishing && r.dbKey == r.password == k
  {
    StartHolds(n, key);
    RunKeeps(Start(n, key), moves);
    ChangeRuns(Run(Start(n, key), moves), t, k, more);
  }

  // ---------------------------------------------------------------------------
  // A change from beginning to end

  /** Nobody holds a lock, and thread t is outside the store. */
  ghost predicate Quiet(s: State, t: nat) {
    && t < |s.locals| && s.locals[t] == Local(Idle, None, 0) && s.writer.None?
    && forall u :: 0 <= u < |s.locals| ==> s.locals[u].holds == 0
  }

  /** One thread's moves: a call, and j steps that turn out well. */
  function Calls(t: nat, call: Action, j: nat): Schedule {
    [(t, call)] + seq(j, _ => (t, Proceed(true)))
  }

  /** Where they lead. */
  function AfterCall(s: State, t: nat, call: Action, j: nat): (r: State)
    requires t < |s.locals|
    ensures |r.locals| == |s.locals|
  {
    if j == 0 then Step(s, t, call) else Step(AfterCall(s, t, call, j - 1), t, Proceed(true))
  }

  lemma {:induction false} CallRuns(s: State, t: nat, call: Action, j: nat)
    requires t < |s.locals|
    ensures Run(s, Calls(t, call, j)) == AfterCall(s, t, call, j)
  {
    var moves := Calls(t, call, j);
    if j == 0 {
      assert moves[..0] == [] && moves[0] == (t, call);
      assert Run(s, moves[..0]) == s;
    } else {
      CallRuns(s, t, call, j - 1);
      assert moves[..j] == Calls(t, call, j - 1) && moves[j] == (t, Proceed(true));
    }
  }

  /** Taking the lock. */
  lemma TakesLock(s: State, t: nat, k: Key)
    requires Quiet(s, t) && s.writeHolds == 0
    ensures var r := AfterCall(s, t, ChangePassword(k), 2);
      r == With(s, t, Local(Blocked(k), None, 0)).(writer := Some(t), writeHolds := 1, blockingThreadId := t)
  {
    var s0 := AfterCall(s, t, ChangePassword(k), 0);
    assert s0 == With(s, t, Local(BlockTry(k), None, 0));
    var s1 := AfterCall(s, t, ChangePassword(k), 1);
    assert s1 == With(s, t, Local(BlockGot(k), None, 0)).(writer := Some(t), writeHolds := 1);
  }

  /** Changing the key. */
  lemma Rekeys(s: State, t: nat, k: Key, r: State)
    requires t < |s.locals| && s.locals[t] == Local(Blocked(k), None, 0)
    requires r == Step(Step(Step(s, t, Proceed(true)), t, Proceed(true)), t, Proceed(true))
    ensures r == With(s, t, Local(Finishing, Some(k), 0)).(dbKey := k, password := k)
  {
    var s1 := Step(s, t, Proceed(true));
    assert s1 == With(s, t, Local(Pc.Changing(k), Some(s.password), 0));
    var s2 := Step(s1, t, Proceed(true));
    assert s2 == With(s, t, Local(Rekeyed(k), Some(k), 0)).(dbKey := k);
  }

  /** Giving the lock back. */
  lemma GivesLockBack(s: State, t: nat, r: State)
    requires t < |s.locals| && s.locals[t].pc == Finishing && s.locals[t].holds == 0
    requires s.writer == Some(t) && s.writeHolds == 1 && s.blockingThreadId == t
    requires r == Step(Step(Step(s, t, Proceed(true)), t, Proceed(true)), t, Proceed(true))
    ensures r == With(s, t, Local(Idle, None, 0)).(writer := None, writeHolds := 0, blockingThreadId := -1)
  {
    var s1 := Step(s, t, Proceed(true));
    assert s1 == With(s, t, Local(Unblocking, None, 0));
    var s2 := Step(s1, t, Proceed(true));
    assert s2 == With(s, t, Local(Releasing, None, 0)).(blockingThreadId := -1);
  }

  /** Changing the password while nobody else is there changes it, and gives all locks back. */
  lemma WholeChange(n: nat, key: Key, moves: Schedule, t: nat, k: Key)
    requires Quiet(Run(Start(n, key), moves), t)
    ensures var r := Run(Run(Start(n, key), moves), Calls(t, ChangePassword(k), 8));
      Quiet(r, t) && r.dbKey == r.password == k
  {
    StartHolds(n, key);
    RunKeeps(Start(n, key), moves);
    var s, call := Run(Start(n, key), moves), ChangePassword(k);
    CallRuns(s, t, call, 8);
    TakesLock(s, t, k);
    var s2, s5 := AfterCall(s, t, call, 2), AfterCall(s, t, call, 5);
    assert AfterCall(s, t, call, 3) == Step(s2, t, Proceed(true));
    assert AfterCall(s, t, call, 4) == Step(AfterCall(s, t, call, 3), t, Proceed(true));
    Rekeys(s2, t, k, s5);
    assert AfterCall(s, t, call, 6) == Step(s5, t, Proceed(true));
    assert AfterCall(s, t, call, 7) == Step(AfterCall(s, t, call, 6), t, Proceed(true));
    GivesLockBack(s5, t, AfterCall(s, t, call, 8));
  }

  // ---------------------------------------------------------------------------
  // Opening a connection

  /** In every run: a thread without a connection that asks for one, and is not kept out, gets one with the
      database's key, whatever other threads do meanwhile. */
  lemma GetOpens(n: nat, key: Key, moves: Schedule, t: nat, more: Schedule)
    requires t < n && MovesOf(more, t) == 0
    requires var s := Run(Start(n, key), moves);
      s.locals[t].pc == Idle && s.locals[t].conn.None? && CanRead(s, t)
    ensures var s := Run(Start(n, key), moves);
      var r := Run(Step(s, t, Get), more);
      Step(r, t, Proceed(true)).locals[t] == Local(Idle, Some(r.dbKey), s.locals[t].holds + 1)
  {
    StartHolds(n, key);
    RunKeeps(Start(n, key), moves);
    var s := Run(Start(n, key), moves);
    StepKeeps(s, t, Get);
    StaysAtPlace(Step(s, t, Get), t, more);
    OpensWithCurrentKey(Run(Step(s, t, Get), more), t);
  }

  lemma {:induction false} StaysAtPlace(s: State, t: nat, more: Schedule)
    requires Inv(s) && t < |s.locals| && MovesOf(more, t) == 0
    ensures Inv(Run(s, more)) && Run(s, more).locals[t] == s.locals[t]
    decreases |more|
  {
    if |more| > 0 {
      var n := |more| - 1;
      StaysAtPlace(s, t, more[..n]);
      var before, u := Run(s, more[..n]), more[n].0;
      if u < |before.locals| {
        StepKeeps(before, u, more[n].1);
        StepFrame(before, u, more[n].1);
      }
    }
  }

  /** Recycling closes the connection and gives its read lock back. */
  lemma RecycleCloses(s: State, t: nat)
    requires Inv(s) && t < |s.locals| && s.locals[t].pc == Idle && s.locals[t].conn.Some?
    ensures var holds := s.locals[t].holds;
      AfterCall(s, t, Recycle, 1) == With(s, t, Local(Idle, None, if holds > 0 then holds - 1 else 0))
  {
    var s0 := AfterCall(s, t, Recycle, 0);
    assert s0 == With(s, t, Local(Unlocking(ToIdle), None, s.locals[t].holds));
  }

  lemma ProbeReads(s: State, t: nat)
    requires Inv(s) && t < |s.locals| && s.locals[t].pc == Idle && s.locals[t].conn.None? && CanRead(s, t)
    ensures var l := s.locals[t];
      AfterCall(s, t, PreCheck, 3) == With(s, t, l.(pc := ProbeDone, holds := l.holds + 1))
  {
    var l := s.locals[t];
    assert AfterCall(s, t, PreCheck, 0) == With(s, t, l.(pc := ProbeTry));
    assert AfterCall(s, t, PreCheck, 1) == With(s, t, l.(pc := ProbeLocked, holds := l.holds + 1));
    assert AfterCall(s, t, PreCheck, 2) == With(s, t, l.(pc := ProbeOpen, holds := l.holds + 1));
  }

  /** preCheck leaves nothing behind: neither a connection nor a lock. */
  lemma PreCheckBalances(s: State, t: nat)
    requires Inv(s) && t < |s.locals| && s.locals[t].pc == Idle && s.locals[t].conn.None?
    ensures AfterCall(s, t, PreCheck, if CanRead(s, t) then 4 else 1) == s
  {
    var l := s.locals[t];
    assert s.locals[t := l] == s.locals;
    if CanRead(s, t) {
      ProbeReads(s, t);
    } else {
      assert AfterCall(s, t, PreCheck, 0) == With(s, t, l.(pc := ProbeTry));
    }
  }
}
