/** When the write lock of a password change is given up: whoever fails to get it overwrites
    blockingThreadId, and the change that is under way then ends without releasing it. */
module Releases {
  import opened Blocking

  /** Places at which blockingThreadId should name the thread. */
  predicate Named(pc: Pc) {
    InChange(pc) && !pc.BlockGot? && !pc.Releasing?
  }

  /** An attempt to block has failed since thread t last set blockingThreadId. */
  ghost predicate Interfered(s: State, moves: Schedule, t: nat)
    decreases |moves|
  {
    if |moves| == 0 then false
    else
      var n := |moves| - 1;
      var before, u := Run(s, moves[..n]), moves[n].0;
      if u >= |before.locals| then Interfered(s, moves[..n], t)
      else if u == t && before.locals[u].pc.BlockGot? then false
      else Interfered(s, moves[..n], t) || before.locals[u].pc.BlockFailed?
  }

  /** How many changes ended after another attempt had failed during them. */
  ghost function Spoilt(s: State, moves: Schedule): nat
    decreases |moves|
  {
    if |moves| == 0 then 0
    else
      var n := |moves| - 1;
      var before, u := Run(s, moves[..n]), moves[n].0;
      Spoilt(s, moves[..n])
      + if u < |before.locals| && before.locals[u].pc.Unblocking? && Interfered(s, moves[..n], u) then 1 else 0
  }

  /** blockingThreadId names the thread that is in a change, unless another attempt has failed. */
  ghost predicate IdOk(s: State, t: nat, interfered: bool)
    requires t < |s.locals|
  {
    Named(s.locals[t].pc) ==> s.blockingThreadId == if interfered then -2 else t
  }

  ghost predicate Changing(s: State) {
    s.writer.Some? && s.writer.value < |s.locals| && InChange(s.locals[s.writer.value].pc)
  }

  /** Every change that was spoilt has left one hold of the write lock behind. */
  ghost predicate HoldsOk(s: State, spoilt: nat) {
    s.writeHolds == spoilt + if Changing(s) then 1 else 0
  }

  lemma OnlyWriterChanges(s: State, t: nat, u: nat)
    requires Inv(s) && t < |s.locals| && u < |s.locals| && InChange(s.locals[t].pc) && InChange(s.locals[u].pc)
    ensures t == u
  {
    assert LocalOk(s, t) && LocalOk(s, u);
  }

  lemma IdStep(s: State, t: nat, u: nat, a: Action, interfered: bool)
    requires Inv(s) && t < |s.locals| && u < |s.locals| && IdOk(s, t, interfered)
    ensures IdOk(Step(s, u, a), t, !(u == t && s.locals[u].pc.BlockGot?) && (interfered || s.locals[u].pc.BlockFailed?))
  {
    if u != t {
      OtherIdStep(s, t, u, a);
    } else {
      OwnIdStep(s, t, a);
    }
  }

  lemma OwnIdStep(s: State, t: nat, a: Action)
    requires t < |s.locals|
    ensures Named(Step(s, t, a).locals[t].pc) ==>
      if s.locals[t].pc.BlockGot? then Step(s, t, a).blockingThreadId == t
      else Named(s.locals[t].pc) && Step(s, t, a).blockingThreadId == s.blockingThreadId && !s.locals[t].pc.BlockFailed?
  {}

  /** Another thread leaves blockingThreadId alone during a change, unless its own attempt has failed. */
  lemma OtherIdStep(s: State, t: nat, u: nat, a: Action)
    requires Inv(s) && t < |s.locals| && u < |s.locals| && u != t
    ensures Step(s, u, a).locals[t] == s.locals[t]
    ensures Named(s.locals[t].pc) ==>
      Step(s, u, a).blockingThreadId == if s.locals[u].pc.BlockFailed? then -2 else s.blockingThreadId
  {
    StepFrame(s, u, a);
    if Named(s.locals[t].pc) && InChange(s.locals[u].pc) {
      OnlyWriterChanges(s, t, u);
    }
  }

  /** In every run, from any good start. */
  lemma {:induction false} IdRun(s: State, moves: Schedule, t: nat)
    requires Inv(s) && t < |s.locals| && !Named(s.locals[t].pc)
    ensures var r := Run(s, moves); Inv(r) && IdOk(r, t, Interfered(s, moves, t))
    decreases |moves|
  {
    if |moves| > 0 {
      var n := |moves| - 1;
      var before, u := Run(s, moves[..n]), moves[n].0;
      IdRun(s, moves[..n], t);
      if u < |before.locals| {
        StepKeeps(before, u, moves[n].1);
        StepFrame(before, u, moves[n].1);
        IdStep(before, t, u, moves[n].1, Interfered(s, moves[..n], t));
      }
    }
  }

  /** A thread outside a change, or in one. */
  lemma OutsideStep(s: State, u: nat, a: Action)
    requires Inv(s) && u < |s.locals| && !InChange(s.locals[u].pc) && !s.locals[u].pc.BlockTry?
    ensures Step(s, u, a).writeHolds == s.writeHolds && Step(s, u, a).writer == s.writer
    ensures Changing(Step(s, u, a)) <==> Changing(s)
  {}

  lemma EntryStep(s: State, u: nat, a: Action)
    requires Inv(s) && u < |s.locals| && s.locals[u].pc.BlockTry?
    ensures var r := Step(s, u, a);
      if r.locals[u].pc.BlockGot? then r.writeHolds == s.writeHolds + 1 && Changing(r) && !Changing(s)
      else r.writeHolds == s.writeHolds && (Changing(r) <==> Changing(s))
  {}

  lemma InsideStep(s: State, u: nat, a: Action)
    requires Inv(s) && u < |s.locals| && InChange(s.locals[u].pc)
    ensures var r := Step(s, u, a);
      && Changing(s) && (Changing(r) <==> InChange(r.locals[u].pc))
      && r.writeHolds == s.writeHolds - (if s.locals[u].pc.Releasing? then 1 else 0)
      && (InChange(r.locals[u].pc) <==>
            !s.locals[u].pc.Releasing? && (s.locals[u].pc.Unblocking? ==> s.blockingThreadId == u))
  {
    assert LocalOk(s, u);
  }

  lemma HoldsStep(s: State, u: nat, a: Action, interfered: bool, spoilt: nat)
    requires Inv(s) && u < |s.locals| && IdOk(s, u, interfered) && HoldsOk(s, spoilt)
    ensures HoldsOk(Step(s, u, a), spoilt + if s.locals[u].pc.Unblocking? && interfered then 1 else 0)
  {
    if InChange(s.locals[u].pc) {
      InsideStep(s, u, a);
    } else if s.locals[u].pc.BlockTry? {
      EntryStep(s, u, a);
    } else {
      OutsideStep(s, u, a);
    }
  }

  lemma {:induction false} HoldsRun(n: nat, key: Key, moves: Schedule)
    ensures var r := Run(Start(n, key), moves); Inv(r) && HoldsOk(r, Spoilt(Start(n, key), moves))
    decreases |moves|
  {
    var s := Start(n, key);
    StartHolds(n, key);
    RunKeeps(s, moves);
    if |moves| > 0 {
      var k := |moves| - 1;
      var before, u := Run(s, moves[..k]), moves[k].0;
      HoldsRun(n, key, moves[..k]);
      if u < |before.locals| {
        IdRun(s, moves[..k], u);
        HoldsStep(before, u, moves[k].1, Interfered(s, moves[..k], u), Spoilt(s, moves[..k]));
      }
    }
  }

  lemma UnblockStep(s: State, t: nat, a: Action)
    requires t < |s.locals| && s.locals[t].pc.Unblocking?
    ensures Step(s, t, a).locals[t].pc.Releasing? <==> s.blockingThreadId == t
  {}

  /** In every run of any number of changers: a change that comes to unblockOtherThread goes on to
      release the write lock if and only if no other attempt has failed since it blocked. */
  lemma ReleasesIff(n: nat, key: Key, moves: Schedule, t: nat, a: Action)
    requires var s := Run(Start(n, key), moves); t < |s.locals| && s.locals[t].pc.Unblocking?
    ensures var s := Run(Start(n, key), moves);
      Step(s, t, a).locals[t].pc.Releasing? <==> !Interfered(Start(n, key), moves, t)
  {
    StartHolds(n, key);
    IdRun(Start(n, key), moves, t);
    var r, interfered := Run(Start(n, key), moves), Interfered(Start(n, key), moves, t);
    assert r.blockingThreadId == if interfered then -2 else t;
    UnblockStep(r, t, a);
  }

  /** In every run: whenever no thread is in a change, the write lock is free if and only if no
      attempt has failed during any change so far. */
  lemma LockFreeIff(n: nat, key: Key, moves: Schedule)
    requires var s := Run(Start(n, key), moves); forall t :: 0 <= t < |s.locals| ==> !InChange(s.locals[t].pc)
    ensures Run(Start(n, key), moves).writer.None? <==> Spoilt(Start(n, key), moves) == 0
  {
    HoldsRun(n, key, moves);
  }

  // ---------------------------------------------------------------------------
  // One changer

  /** Only thread c ever starts to change the password. */
  ghost predicate OnlyChanger(moves: Schedule, c: nat) {
    forall k :: 0 <= k < |moves| && moves[k].1.ChangePassword? ==> moves[k].0 == c
  }

  /** Places on the way into a change, or in it. */
  predicate Attempts(pc: Pc) {
    || InChange(pc) || pc.BlockTry? || pc.BlockFailed?
    || (pc.Unlocking? && pc.next.ToBlock?) || (pc.Opening? && pc.back.ToBlock?)
  }

  ghost predicate OthersStayOut(s: State, c: nat) {
    forall u :: 0 <= u < |s.locals| && u != c ==> !Attempts(s.locals[u].pc)
  }

  lemma OneChangerStep(s: State, u: nat, a: Action, c: nat)
    requires Inv(s) && u < |s.locals| && OthersStayOut(s, c) && (a.ChangePassword? ==> u == c)
    ensures OthersStayOut(Step(s, u, a), c)
    ensures u != c ==> !s.locals[u].pc.BlockFailed? && !s.locals[u].pc.Unblocking?
  {
    StepFrame(s, u, a);
    if u != c {
      assert !Attempts(s.locals[u].pc);
      assert !Attempts(Step(s, u, a).locals[u].pc);
    }
  }

  /** The changer's own failures come before it blocks. */
  lemma OwnStep(s: State, u: nat, a: Action, c: nat)
    requires Inv(s) && u < |s.locals| && c < |s.locals| && OthersStayOut(s, c)
    ensures Named(Step(s, u, a).locals[c].pc) ==>
      !s.locals[u].pc.BlockFailed? && (Named(s.locals[c].pc) || (u == c && s.locals[c].pc.BlockGot?))
  {
    StepFrame(s, u, a);
    if u != c {
      assert !Attempts(s.locals[u].pc);
    }
  }

  /** No change of the only changer is spoilt. */
  lemma {:induction false} OneChangerRun(n: nat, key: Key, moves: Schedule, c: nat)
    requires OnlyChanger(moves, c)
    ensures var s := Run(Start(n, key), moves);
      && OthersStayOut(s, c) && Spoilt(Start(n, key), moves) == 0
      && (c < |s.locals| && Named(s.locals[c].pc) ==> !Interfered(Start(n, key), moves, c))
    decreases |moves|
  {
    if |moves| > 0 {
      var k := |moves| - 1;
      var before, u, a := Run(Start(n, key), moves[..k]), moves[k].0, moves[k].1;
      OneChangerRun(n, key, moves[..k], c);
      StartHolds(n, key);
      RunKeeps(Start(n, key), moves[..k]);
      if u < |before.locals| {
        OneChangerStep(before, u, a, c);
        if c < |before.locals| {
          OwnStep(before, u, a, c);
        }
      }
    }
  }

  /** In every run with one changer, the write lock is free whenever it is not changing the password. */
  lemma OneChangerReleases(n: nat, key: Key, moves: Schedule, c: nat)
    requires OnlyChanger(moves, c)
    requires var s := Run(Start(n, key), moves); c < |s.locals| && !InChange(s.locals[c].pc)
    ensures Run(Start(n, key), moves).writer.None?
  {
    OneChangerRun(n, key, moves, c);
    LockFreeIff(n, key, moves);
  }

  // ---------------------------------------------------------------------------
  // Two changers

  const GO := Proceed(true)
  const AWAY := Local(Idle, None, 0)
  const HOLDING := Local(Blocked(7), None, 0)

  lemma FirstBlocks()
    ensures Run(Start(2, 0), [(0, ChangePassword(7)), (0, GO), (0, GO)])
         == State([HOLDING, AWAY], Some(0), 1, 0, 0, 0)
  {
    assert Start(2, 0) == State([AWAY, AWAY], None, 0, -1, 0, 0);
    RunThree(Start(2, 0), [(0, ChangePassword(7)), (0, GO), (0, GO)], State([HOLDING, AWAY], Some(0), 1, 0, 0, 0));
  }

  lemma SecondFails()
    ensures Run(State([HOLDING, AWAY], Some(0), 1, 0, 0, 0), [(1, ChangePassword(8)), (1, GO), (1, GO)])
         == State([HOLDING, AWAY], Some(0), 1, -2, 0, 0)
  {
    RunThree(State([HOLDING, AWAY], Some(0), 1, 0, 0, 0), [(1, ChangePassword(8)), (1, GO), (1, GO)],
             State([HOLDING, AWAY], Some(0), 1, -2, 0, 0));
  }

  lemma FirstEnds()
    ensures Run(State([HOLDING, AWAY], Some(0), 1, -2, 0, 0), [(0, Proceed(false)), (0, GO), (0, GO)])
         == State([AWAY, AWAY], Some(0), 1, -2, 0, 0)
  {
    RunThree(State([HOLDING, AWAY], Some(0), 1, -2, 0, 0), [(0, Proceed(false)), (0, GO), (0, GO)],
             State([AWAY, AWAY], Some(0), 1, -2, 0, 0));
  }

  /** Two changers at once: the one that times out overwrites blockingThreadId, and the other ends
      without giving up the write lock. */
  lemma LockCanStay() returns (moves: Schedule)
    ensures Run(Start(2, 0), moves) == State([AWAY, AWAY], Some(0), 1, -2, 0, 0)
  {
    var a, b, c := [(0, ChangePassword(7)), (0, GO), (0, GO)], [(1, ChangePassword(8)), (1, GO), (1, GO)],
                   [(0, Proceed(false)), (0, GO), (0, GO)];
    FirstBlocks();
    SecondFails();
    FirstEnds();
    RunConcat(Start(2, 0), a, b);
    RunConcat(Start(2, 0), a + b, c);
    moves := a + b + c;
  }

  lemma RunThree(s: State, moves: Schedule, r: State)
    requires |moves| == 3 && forall i :: 0 <= i < 3 ==> moves[i].0 < |s.locals|
    requires r == Step(Step(Step(s, moves[0].0, moves[0].1), moves[1].0, moves[1].1), moves[2].0, moves[2].1)
    ensures r == Run(s, moves)
  {
    assert moves[..2][..1] == moves[..1] && moves[..1][..0] == [];
    assert Run(s, moves[..1]) == Step(s, moves[0].0, moves[0].1);
    assert Run(s, moves[..2]) == Step(Run(s, moves[..1]), moves[1].0, moves[1].1);
  }

  lemma {:induction false} RunConcat(s: State, a: Schedule, b: Schedule)
    ensures Run(s, a + b) == Run(Run(s, a), b)
    decreases |b|
  {
    if |b| == 0 {
      assert a + b == a;
    } else {
      RunConcat(s, a, b[..|b| - 1]);
      assert (a + b)[..|a + b| - 1] == a + b[..|b| - 1];
    }
  }
}
