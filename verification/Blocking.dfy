/** The protocol by which a password change keeps every other thread away from the database: request
    threads with thread-local connections, and any number of password changers, step by step.
    A run interleaves the steps of all threads in any order. */
module Blocking {

  datatype Option<T> = None | Some(value: T)

  /** A database password. */
  type Key = nat

  /** Where control goes when a recycled connection's read lock has been released, or a connection
      has been opened. */
  datatype After = ToIdle | ToProbe | ToBlock(newKey: Key) | ToFinish

  /** A thread's place in the store's methods. */
  datatype Pc =
    | Idle
    | Opening(back: After)          // get: read lock taken, connection not yet created
    | Unlocking(next: After)        // threadRecycle: connection disposed, read lock not yet released
    | ProbeTry                      // preCheck: recycled
    | ProbeLocked                   // preCheck: read lock taken
    | ProbeOpen                     // preCheck: its own connection is open
    | ProbeDone                     // preCheck: its own connection is disposed
    | BlockTry(newKey: Key)         // blockOtherThread: recycled
    | BlockFailed                   // blockOtherThread: no write lock in time
    | BlockGot(newKey: Key)         // blockOtherThread: write lock taken
    | Blocked(newKey: Key)          // doChangePassword: blocking succeeded
    | Changing(newKey: Key)         // doChangePassword: connection open, about to rekey
    | Rekeyed(newKey: Key)          // doChangePassword: database rekeyed, password not yet stored
    | Finishing                     // doChangePassword: in the callback
    | Unblocking                    // unblockOtherThread: recycled
    | Releasing                     // unblockOtherThread: blockingThreadId cleared

  /** A thread: its place, the key of its thread-local connection, and its read locks. */
  datatype Local = Local(pc: Pc, conn: Option<Key>, holds: nat)

  /** blockingThreadId is -1 for none and -2 after a failed attempt.  dbKey is the database's key,
      password the one that is stored for opening connections. */
  datatype State = State(locals: seq<Local>, writer: Option<nat>, writeHolds: nat, blockingThreadId: int,
                         dbKey: Key, password: Key)

  /** What a thread does next: a call it makes, or how its next step turns out. */
  datatype Action = Get | Recycle | PreCheck | ChangePassword(newKey: Key) | Proceed(ok: bool)

  /** The read lock is refused only while another thread has the write lock. */
  predicate CanRead(s: State, t: nat) {
    s.writer == None || s.writer == Some(t)
  }

  /** The write lock needs all other locks gone, even read locks of the same thread. */
  predicate CanWrite(s: State, t: nat) {
    s.writer == Some(t) || (s.writer == None && forall u :: 0 <= u < |s.locals| ==> s.locals[u].holds == 0)
  }

  function With(s: State, t: nat, l: Local): State
    requires t < |s.locals|
  {
    s.(locals := s.locals[t := l])
  }

  function PcAfter(next: After): Pc {
    match next
    case ToIdle => Idle
    case ToProbe => ProbeTry
    case ToBlock(newKey) => BlockTry(newKey)
    case ToFinish => Finishing
  }

  /** get(true). */
  function StartGet(s: State, t: nat, back: After): State
    requires t < |s.locals|
  {
    var l := s.locals[t];
    if l.conn.Some? || !CanRead(s, t) then s
    else With(s, t, l.(pc := Opening(back), holds := l.holds + 1))
  }

  /** threadRecycle(true). */
  function StartRecycle(s: State, t: nat, next: After): State
    requires t < |s.locals|
  {
    var l := s.locals[t];
    if l.conn.None? then With(s, t, l.(pc := PcAfter(next)))
    else With(s, t, l.(pc := Unlocking(next), conn := None))
  }

  /** One step of thread t; an action that does not apply changes nothing. */
  function Step(s: State, t: nat, a: Action): (r: State)
    requires t < |s.locals|
    ensures |r.locals| == |s.locals|
  {
    var l := s.locals[t];
    match l.pc
    case Idle =>
      (match a
       case Get => StartGet(s, t, ToIdle)
       case Recycle => StartRecycle(s, t, ToIdle)
       case PreCheck => StartRecycle(s, t, ToProbe)
       case ChangePassword(newKey) => StartRecycle(s, t, ToBlock(newKey))
       case Proceed(_) => s)
    case Opening(back) =>
      // a connection that cannot be opened leaves the read lock taken
      With(s, t, l.(pc := PcAfter(back), conn := if a == Proceed(true) then Some(s.password) else l.conn))
    case Unlocking(next) =>
      // releasing a lock that is not held throws: the call ends, or the callback does
      if l.holds > 0 then With(s, t, l.(pc := PcAfter(next), holds := l.holds - 1))
      else With(s, t, l.(pc := if next.ToFinish? then Finishing else Idle))
    case ProbeTry =>
      if CanRead(s, t) then With(s, t, l.(pc := ProbeLocked, holds := l.holds + 1))
      else With(s, t, l.(pc := Idle))
    case ProbeLocked =>
      With(s, t, l.(pc := if a == Proceed(true) then ProbeOpen else ProbeDone))
    case ProbeOpen =>
      With(s, t, l.(pc := ProbeDone))
    case ProbeDone =>
      if l.holds > 0 then With(s, t, l.(pc := Idle, holds := l.holds - 1)) else With(s, t, l.(pc := Idle))
    case BlockTry(newKey) =>
      if a == Proceed(true) && CanWrite(s, t) then
        With(s, t, l.(pc := BlockGot(newKey))).(writer := Some(t), writeHolds := s.writeHolds + 1)
      else With(s, t, l.(pc := BlockFailed))
    case BlockFailed =>
      With(s, t, l.(pc := Idle)).(blockingThreadId := -2)
    case BlockGot(newKey) =>
      With(s, t, l.(pc := Blocked(newKey))).(blockingThreadId := t)
    case Blocked(newKey) =>
      // executeSQL: get(false) takes no read lock
      if l.conn.Some? then With(s, t, l.(pc := Changing(newKey)))
      else if a == Proceed(true) then With(s, t, l.(pc := Changing(newKey), conn := Some(s.password)))
      else With(s, t, l.(pc := Finishing))
    case Changing(newKey) =>
      if a == Proceed(true) then With(s, t, l.(pc := Rekeyed(newKey), conn := Some(newKey))).(dbKey := newKey)
      else With(s, t, l.(pc := Finishing))
    case Rekeyed(newKey) =>
      With(s, t, l.(pc := Finishing)).(password := newKey)
    case Finishing =>
      (match a
       case Get => StartGet(s, t, ToFinish)
       case Recycle => StartRecycle(s, t, ToFinish)
       case Proceed(_) => With(s, t, l.(pc := Unblocking, conn := None))
       case _ => s)
    case Unblocking =>
      if s.blockingThreadId == t then With(s, t, l.(pc := Releasing)).(blockingThreadId := -1)
      else With(s, t, l.(pc := Idle))
    case Releasing =>
      var holds := if s.writeHolds > 0 then s.writeHolds - 1 else 0;
      With(s, t, l.(pc := Idle)).(writeHolds := holds, writer := if holds == 0 then None else s.writer)
  }

  /** A run: which thread moves, and how. */
  type Schedule = seq<(nat, Action)>

  function Run(s: State, moves: Schedule): (r: State)
    ensures |r.locals| == |s.locals|
    decreases |moves|
  {
    if |moves| == 0 then s
    else
      var before := Run(s, moves[..|moves| - 1]);
      var (t, a) := moves[|moves| - 1];
      if t < |before.locals| then Step(before, t, a) else before
  }

  /** n threads outside the store, no locks, and the stored password opens the database. */
  function Start(n: nat, key: Key): State {
    State(seq(n, _ => Local(Idle, None, 0)), None, 0, -1, key, key)
  }

  // ---------------------------------------------------------------------------
  // The invariant

  /** Places from the successful tryLock of the write lock to its release. */
  predicate InChange(pc: Pc) {
    || pc.BlockGot? || pc.Blocked? || pc.Changing? || pc.Rekeyed? || pc.Finishing? || pc.Unblocking? || pc.Releasing?
    || (pc.Opening? && pc.back.ToFinish?) || (pc.Unlocking? && pc.next.ToFinish?)
  }

  /** Places at which the thread counts on its read lock. */
  predicate Reading(pc: Pc) {
    pc.Opening? || pc.ProbeLocked? || pc.ProbeOpen? || pc.ProbeDone?
  }

  /** Places at which the thread has no thread-local connection. */
  predicate Recycled(pc: Pc) {
    || pc.Unlocking? || pc.ProbeTry? || pc.ProbeLocked? || pc.ProbeOpen? || pc.ProbeDone?
    || pc.Unblocking? || pc.Releasing?
  }

  /** An open connection is covered by a lock and has the database's key; places in the protocol
      have the locks they count on; a writer excludes every other thread's read locks. */
  ghost predicate LocalOk(s: State, t: nat)
    requires t < |s.locals|
  {
    var l := s.locals[t];
    && (l.conn.Some? ==> (l.holds > 0 || s.writer == Some(t)) && l.conn.value == s.dbKey)
    && (Reading(l.pc) ==> l.holds > 0)
    && (InChange(l.pc) ==> s.writer == Some(t))
    && (l.pc.Rekeyed? ==> l.pc.newKey == s.dbKey)
    && (Recycled(l.pc) ==> l.conn.None?)
    && (l.pc.Opening? ==> l.pc.back.ToIdle? || l.pc.back.ToFinish?)
    && (s.writer.Some? && s.writer != Some(t) ==> l.holds == 0)
  }

  ghost predicate Inv(s: State) {
    && (s.writer.Some? ==> s.writer.value < |s.locals|) && (s.writer.Some? <==> s.writeHolds > 0)
    && (forall t :: 0 <= t < |s.locals| ==> LocalOk(s, t))
    && (s.dbKey == s.password || (s.writer.Some? && s.locals[s.writer.value].pc.Rekeyed?))
  }

  lemma StartHolds(n: nat, key: Key)
    ensures Inv(Start(n, key))
  {}

  /** A connection is only ever opened with the key of the database. */
  lemma OpensWithCurrentKey(s: State, t: nat)
    requires Inv(s) && t < |s.locals| && (s.locals[t].pc.Opening? || s.locals[t].pc.Blocked?)
    ensures s.password == s.dbKey
  {
    assert LocalOk(s, t);
  }

  /** The other threads of a state whose locks and keys stay. */
  lemma OthersOk(s: State, t: nat, r: State)
    requires Inv(s) && t < |s.locals| && |r.locals| == |s.locals|
    requires forall u :: 0 <= u < |s.locals| && u != t ==> r.locals[u] == s.locals[u]
    requires || r.writer == s.writer || (r.writer == Some(t) && CanWrite(s, t))
             || (r.writer == None && s.writer == Some(t))
    requires r.dbKey == s.dbKey || s.writer == Some(t)
    ensures forall u :: 0 <= u < |s.locals| && u != t ==> LocalOk(r, u)
  {
    forall u | 0 <= u < |s.locals| && u != t ensures LocalOk(r, u) {
      assert LocalOk(s, u);
    }
  }

  lemma MoverGets(s: State, t: nat, a: Action)
    requires Inv(s) && t < |s.locals| && (s.locals[t].pc.Idle? || s.locals[t].pc.Opening? || s.locals[t].pc.Finishing?)
    ensures LocalOk(Step(s, t, a), t)
  {
    assert LocalOk(s, t);
    if s.locals[t].pc.Opening? {
      OpensWithCurrentKey(s, t);
    }
  }

  lemma MoverReads(s: State, t: nat, a: Action)
    requires Inv(s) && t < |s.locals|
    requires var pc := s.locals[t].pc;
      pc.Unlocking? || pc.ProbeTry? || pc.ProbeLocked? || pc.ProbeOpen? || pc.ProbeDone?
    ensures LocalOk(Step(s, t, a), t)
  {
    assert LocalOk(s, t);
  }

  lemma MoverBlocks(s: State, t: nat, a: Action)
    requires Inv(s) && t < |s.locals|
    requires var pc := s.locals[t].pc;
      pc.BlockTry? || pc.BlockFailed? || pc.BlockGot? || pc.Unblocking? || pc.Releasing?
    ensures LocalOk(Step(s, t, a), t)
  {
    assert LocalOk(s, t);
  }

  lemma MoverChanges(s: State, t: nat, a: Action)
    requires Inv(s) && t < |s.locals|
    requires var pc := s.locals[t].pc; pc.Blocked? || pc.Changing? || pc.Rekeyed?
    ensures LocalOk(Step(s, t, a), t)
  {
    assert LocalOk(s, t);
    if s.locals[t].pc.Blocked? {
      OpensWithCurrentKey(s, t);
    }
  }

  /** The moving thread itself. */
  lemma MoverOk(s: State, t: nat, a: Action)
    requires Inv(s) && t < |s.locals|
    ensures LocalOk(Step(s, t, a), t)
  {
    var pc := s.locals[t].pc;
    if pc.Idle? || pc.Opening? || pc.Finishing? {
      MoverGets(s, t, a);
    } else if pc.Blocked? || pc.Changing? || pc.Rekeyed? {
      MoverChanges(s, t, a);
    } else if pc.BlockTry? || pc.BlockFailed? || pc.BlockGot? || pc.Unblocking? || pc.Releasing? {
      MoverBlocks(s, t, a);
    } else {
      MoverReads(s, t, a);
    }
  }

  /** The locks and the keys. */
  lemma GlobalsOk(s: State, t: nat, a: Action)
    requires Inv(s) && t < |s.locals|
    ensures var r := Step(s, t, a);
      && (r.writer.Some? ==> r.writer.value < |r.locals|) && (r.writer.Some? <==> r.writeHolds > 0)
      && (r.dbKey == r.password || (r.writer.Some? && r.locals[r.writer.value].pc.Rekeyed?))
  {
    assert LocalOk(s, t);
  }

  /** Every step of every thread keeps the invariant. */
  lemma StepKeeps(s: State, t: nat, a: Action)
    requires Inv(s) && t < |s.locals|
    ensures Inv(Step(s, t, a))
  {
    MoverOk(s, t, a);
    GlobalsOk(s, t, a);
    StepFrame(s, t, a);
    OthersOk(s, t, Step(s, t, a));
  }

  /** What a step leaves alone. */
  lemma StepFrame(s: State, t: nat, a: Action)
    requires Inv(s) && t < |s.locals|
    ensures var r := Step(s, t, a);
      && (forall u :: 0 <= u < |s.locals| && u != t ==> r.locals[u] == s.locals[u])
      && (r.writer == s.writer || (r.writer == Some(t) && CanWrite(s, t)) || (r.writer == None && s.writer == Some(t)))
      && (r.dbKey == s.dbKey || s.writer == Some(t))
  {
    assert LocalOk(s, t);
  }

  lemma {:induction false} RunKeeps(s: State, moves: Schedule)
    requires Inv(s)
    ensures Inv(Run(s, moves))
    decreases |moves|
  {
    if |moves| > 0 {
      RunKeeps(s, moves[..|moves| - 1]);
      var before := Run(s, moves[..|moves| - 1]);
      var (t, a) := moves[|moves| - 1];
      if t < |before.locals| {
        StepKeeps(before, t, a);
      }
    }
  }

  // ---------------------------------------------------------------------------
  // What every run has

  /** Thread t has no connection, and is not reading through one of its own. */
  ghost predicate KeptOut(s: State, t: nat)
    requires t < |s.locals|
  {
    s.locals[t].conn.None? && s.locals[t].holds == 0 && !Reading(s.locals[t].pc)
  }

  /** Safety: while a thread has the write lock, no other thread has a connection open. */
  lemma OthersKeptOut(n: nat, key: Key, moves: Schedule, w: nat)
    ensures var s := Run(Start(n, key), moves);
      s.writer == Some(w) ==> forall t :: 0 <= t < |s.locals| && t != w ==> KeptOut(s, t)
  {
    StartHolds(n, key);
    RunKeeps(Start(n, key), moves);
    var s := Run(Start(n, key), moves);
    forall t | 0 <= t < |s.locals| && s.writer == Some(w) && t != w ensures KeptOut(s, t) {
      assert LocalOk(s, t);
    }
  }

  /** From a successful blockOtherThread to the release, the changing thread has the write lock. */
  lemma ChangeHoldsTheLock(n: nat, key: Key, moves: Schedule, t: nat)
    ensures var s := Run(Start(n, key), moves);
      t < |s.locals| && InChange(s.locals[t].pc) ==> s.writer == Some(t)
  {
    StartHolds(n, key);
    RunKeeps(Start(n, key), moves);
    var s := Run(Start(n, key), moves);
    if t < |s.locals| {
      assert LocalOk(s, t);
    }
  }

  /** No connection ever outlives the password it was opened with. */
  lemma NoStaleConnection(n: nat, key: Key, moves: Schedule, t: nat)
    ensures var s := Run(Start(n, key), moves);
      t < |s.locals| && s.locals[t].conn.Some? ==> s.locals[t].conn.value == s.dbKey
  {
    StartHolds(n, key);
    RunKeeps(Start(n, key), moves);
    var s := Run(Start(n, key), moves);
    if t < |s.locals| {
      assert LocalOk(s, t);
    }
  }

  /** The database's key changes only when every other thread is kept out, and away from the write
      lock the stored password is the database's key. */
  lemma KeyChangesAlone(n: nat, key: Key, moves: Schedule, t: nat, a: Action)
    ensures var s := Run(Start(n, key), moves);
      t < |s.locals| && Step(s, t, a).dbKey != s.dbKey ==>
        forall u :: 0 <= u < |s.locals| && u != t ==> KeptOut(s, u)
    ensures var s := Run(Start(n, key), moves); s.writer.None? ==> s.password == s.dbKey
  {
    StartHolds(n, key);
    RunKeeps(Start(n, key), moves);
    var s := Run(Start(n, key), moves);
    if t < |s.locals| {
      assert LocalOk(s, t);
      forall u | 0 <= u < |s.locals| && u != t && s.writer == Some(t) ensures KeptOut(s, u) {
        assert LocalOk(s, u);
      }
    }
  }
}
