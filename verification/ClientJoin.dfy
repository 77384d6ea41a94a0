/** Whether a Disconnect that waits for the event thread can ever return. */
module ClientJoin {
  import opened ClientDriver

  /** A step; a quiet one does not write RUNNING. */
  ghost predicate Allowed(s: Sys, s': Sys, quiet: bool) {
    Step(s, s') && (quiet && |s'.trace| > |s.trace| ==> !s'.trace[|s.trace|].WentRunning?)
  }

  /** Caller `t` gets out of its join within `n` steps. */
  ghost predicate Leaves(s: Sys, t: nat, n: nat, quiet: bool)
    decreases n
  {
    t < |s.callers| && (!s.callers[t].Joining? || (n > 0 && exists s' :: Allowed(s, s', quiet) && Leaves(s', t, n - 1, quiet)))
  }

  /** Some continuation gets caller `t` out of its join. */
  ghost predicate CanReturn(s: Sys, t: nat, quiet: bool) {
    exists n: nat :: Leaves(s, t, n, quiet)
  }

  /** The event thread has left its wait for good. */
  predicate Entered(s: Sys) {
    InLoop(s.event) || s.event.Dead?
  }

  ghost predicate NobodyLocked(s: Sys) {
    forall u :: 0 <= u < |s.callers| ==> !s.callers[u].Locked?
  }

  ghost predicate AllJoining(s: Sys) {
    forall u :: 0 <= u < |s.callers| ==> s.callers[u].Joining?
  }

  // ---------------------------------------------------------------- building a continuation

  lemma OneMore(s: Sys, s': Sys, t: nat, quiet: bool)
    requires Allowed(s, s', quiet) && CanReturn(s', t, quiet) && t < |s.callers|
    ensures CanReturn(s, t, quiet)
  {
    var n: nat :| Leaves(s', t, n, quiet);
    assert Leaves(s, t, n + 1, quiet);
  }

  lemma EventIsAllowed(s: Sys, s': Sys, quiet: bool)
    requires EventStep(s, s')
    ensures Allowed(s, s', quiet) && s'.callers == s.callers
  {
    EventMoves(s, s');
  }

  /** The way out of the loop that the event thread can always take. */
  function NextEvent(s: Sys): Sys
    requires InLoop(s.event)
  {
    match s.event
    case Head => s.(event := if s.socketOk then ReadState else Leaving, trace := Log(s, SawSocket(s.socketOk)))
    case ReadState =>
      s.(event := if s.state.Running? && s.processed then Calling else Leaving, trace := Log(s, SawState(s.state.Running?)))
    case Calling => s.(event := InCheck, trace := Log(s, CheckBegin))
    case InCheck => s.(event := Head, processed := false, trace := Log(s, CheckEnd(false)))
    case Failing => s.(event := InCheck, state := Stopping, trace := Log(s, WentOff(Stopping)))
    case Thrown => s.(event := Head, state := Stopping, trace := Log(s, WentOff(Stopping)))
    case Leaving => s.(event := Returning, trace := Log(s, ThreadStop))
    case Returning => s.(event := Dead, mutex := Free, trace := Log(s, ThreadExit))
  }

  function StepsToExit(s: Sys): nat {
    match s.event
    case Returning => 1
    case Leaving => 2
    case ReadState => if s.processed then 7 else 3
    case Head => if s.processed then 8 else 4
    case InCheck => 5
    case Calling => 6
    case Failing => 6
    case Thrown => 9
    case _ => 0
  }

  lemma {:induction false} LoopExits(s: Sys, t: nat, quiet: bool)
    requires Entered(s) && t < |s.callers| && s.callers[t].Joining?
    ensures CanReturn(s, t, quiet)
    decreases StepsToExit(s)
  {
    if s.event.Dead? {
      DeadLeaves(s, t, quiet);
    } else {
      var s' := NextEvent(s);
      EventIsAllowed(s, s', quiet);
      LoopExits(s', t, quiet);
      OneMore(s, s', t, quiet);
    }
  }

  lemma TestingExits(s: Sys, t: nat, quiet: bool)
    requires s.event.Testing? && s.state.Running? && t < |s.callers| && s.callers[t].Joining?
    ensures CanReturn(s, t, quiet)
  {
    var s' := s.(event := Head, processed := true, trace := Log(s, LoopEntered));
    EventIsAllowed(s, s', quiet);
    LoopExits(s', t, quiet);
    OneMore(s, s', t, quiet);
  }

  lemma FreeMutexExits(s: Sys, t: nat, quiet: bool)
    requires (s.event.Locking? || s.event.Waiting?) && s.mutex.Free?
    requires s.state.Running? && t < |s.callers| && s.callers[t].Joining?
    ensures CanReturn(s, t, quiet)
  {
    var s' := s.(event := Testing, mutex := ByEvent);
    EventIsAllowed(s, s', quiet);
    TestingExits(s', t, quiet);
    OneMore(s, s', t, quiet);
  }

  /** A caller that only has to unlock gives the mutex back. */
  function Unlocked(s: Sys, u: nat): Sys
    requires u < |s.callers|
  {
    At(s, u, Ready).(mutex := Free)
  }

  lemma UnlockIsAllowed(s: Sys, u: nat, quiet: bool)
    requires u < |s.callers| && s.callers[u].Releasing?
    ensures Allowed(s, Unlocked(s, u), quiet)
  {
    assert CallerStep(s, Unlocked(s, u), u);
  }

  lemma WaitingExits(s: Sys, t: nat, quiet: bool)
    requires MutexInv(s) && NobodyLocked(s) && (s.event.Locking? || s.event.Waiting?)
    requires s.state.Running? && t < |s.callers| && s.callers[t].Joining?
    ensures CanReturn(s, t, quiet)
  {
    if s.mutex.Free? {
      FreeMutexExits(s, t, quiet);
    } else {
      var u := s.mutex.t;
      assert s.callers[u].HoldsMutex();
      UnlockIsAllowed(s, u, quiet);
      FreeMutexExits(Unlocked(s, u), t, quiet);
      OneMore(s, Unlocked(s, u), t, quiet);
    }
  }

  /** With the loop entered, or RUNNING written and the mutex to be had, the join can return. */
  lemma ReleasedExits(s: Sys, t: nat, quiet: bool)
    requires MutexInv(s) && t < |s.callers| && s.callers[t].Joining?
    requires Entered(s) || (s.state.Running? && NobodyLocked(s))
    ensures CanReturn(s, t, quiet)
  {
    if Entered(s) {
      LoopExits(s, t, quiet);
    } else if s.event.Testing? {
      TestingExits(s, t, quiet);
    } else if s.event.Unborn? {
      var s' := s.(event := Locking, trace := Log(s, ThreadStart));
      EventIsAllowed(s, s', quiet);
      EventKeepsMutex(s, s');
      WaitingExits(s', t, quiet);
      OneMore(s, s', t, quiet);
    } else {
      WaitingExits(s, t, quiet);
    }
  }

  // ---------------------------------------------------------------- the closed set

  /** The event thread has not entered its loop, and cannot unless RUNNING is written. */
  ghost predicate Stuck(s: Sys) {
    MutexInv(s) && !Entered(s) && (!s.state.Running? || !NobodyLocked(s))
  }

  lemma EventKeepsStuck(s: Sys, s': Sys)
    requires Stuck(s) && EventStep(s, s')
    ensures Stuck(s') && s'.callers == s.callers
  {
    EventKeepsMutex(s, s');
    EventMoves(s, s');
    if !NobodyLocked(s) {
      var u :| 0 <= u < |s.callers| && s.callers[u].Locked?;
      assert s.mutex == ByCaller(u);
    }
  }

  /** What a step that does not write RUNNING leaves alone. */
  lemma QuietCaller(s: Sys, s': Sys, u: nat)
    requires u < |s.callers| && CallerStep(s, s', u) && Allowed(s, s', true)
    ensures !s.callers[u].Locked? && (s'.state == s.state || !s'.state.Running?)
  {
    CallerMoves(s, s', u);
  }

  lemma CallerKeepsStuck(s: Sys, s': Sys, u: nat)
    requires Stuck(s) && u < |s.callers| && CallerStep(s, s', u) && Allowed(s, s', true)
    ensures Stuck(s')
  {
    CallerKeepsMutex(s, s', u);
    CallerMovesItself(s, s', u);
    QuietCaller(s, s', u);
    if !NobodyLocked(s) {
      var v :| 0 <= v < |s.callers| && s.callers[v].Locked?;
      assert s'.callers[v].Locked?;
    }
  }

  /** Before the event thread's exit nobody gets out of a join. */
  lemma JoinStays(s: Sys, s': Sys, t: nat)
    requires t < |s.callers| && s.callers[t].Joining? && !s.event.Dead? && Step(s, s')
    ensures t < |s'.callers| && s'.callers[t].Joining?
  {
    if EventStep(s, s') {
      EventMoves(s, s');
    } else {
      var u :| 0 <= u < |s.callers| && CallerStep(s, s', u);
      CallerMovesItself(s, s', u);
    }
  }

  lemma AllJoiningStays(s: Sys, s': Sys)
    requires AllJoining(s) && !s.event.Dead? && Step(s, s')
    ensures EventStep(s, s') && AllJoining(s')
  {
    EventMoves(s, s');
  }

  lemma {:induction false} StuckNeverReturns(s: Sys, t: nat, n: nat, quiet: bool)
    requires Stuck(s) && t < |s.callers| && s.callers[t].Joining? && (quiet || AllJoining(s))
    ensures !Leaves(s, t, n, quiet)
    decreases n
  {
    if Leaves(s, t, n, quiet) {
      var s' :| Allowed(s, s', quiet) && Leaves(s', t, n - 1, quiet);
      JoinStays(s, s', t);
      if AllJoining(s) {
        AllJoiningStays(s, s');
      }
      if EventStep(s, s') {
        EventKeepsStuck(s, s');
      } else {
        var u :| 0 <= u < |s.callers| && CallerStep(s, s', u);
        CallerKeepsStuck(s, s', u);
      }
      StuckNeverReturns(s', t, n - 1, quiet);
    }
  }

  // ---------------------------------------------------------------- another caller connects

  /** A caller about to write RUNNING writes it. */
  lemma LockedExits(s: Sys, t: nat, u: nat)
    requires MutexInv(s) && t < |s.callers| && s.callers[t].Joining? && u < |s.callers| && s.callers[u].Locked?
    ensures CanReturn(s, t, false)
  {
    var s' := At(s, u, Releasing).(state := Running, trace := Log(s, WentRunning(u)));
    assert CallerStep(s, s', u) && Allowed(s, s', false);
    CallerKeepsMutex(s, s', u);
    forall v | 0 <= v < |s'.callers|
      ensures !s'.callers[v].Locked?
    {
      assert s.mutex == ByCaller(u);
      assert s.mutex == ByCaller(v) <==> s.callers[v].HoldsMutex();
    }
    ReleasedExits(s', t, false);
    OneMore(s, s', t, false);
  }

  /** The way to a successful Connect from wherever a caller is, if not in a join. */
  function NextCall(s: Sys, u: nat): Sys
    requires u < |s.callers| && !s.callers[u].Joining? && !s.callers[u].Locked?
  {
    match s.callers[u]
    case Ready => At(s, u, Connecting)
    case Connecting => At(s, u, Greeting).(socketOk := true, trace := Log(s, SocketConnected(u)))
    case Greeting => At(s, u, WantLock)
    case WantLock => At(s, u, Locked).(mutex := ByCaller(u))
    case Releasing => Unlocked(s, u)
    case SendFailed(greeting) =>
      At(s, u, if greeting then Greeting else Ready).(state := Stopping, trace := Log(s, WentOff(Stopping)))
    case Disconnecting => At(s, u, Closing).(state := Stopping, trace := Log(s, WentOff(Stopping)))
    case Closing => At(s, u, Finishing)
    case Finishing => At(s, u, Ready).(state := Stopped, trace := Log(s, WentOff(Stopped)))
  }

  function StepsToLock(pc: CallerPc): nat {
    match pc
    case WantLock => 1
    case Greeting => 2
    case Connecting => 3
    case Ready => 4
    case SendFailed(greeting) => if greeting then 3 else 5
    case Releasing => 5
    case Finishing => 5
    case Closing => 6
    case Disconnecting => 7
    case _ => 0
  }

  /** Whoever holds the mutex outside the loop gives it back, or the join can return at once. */
  lemma MutexComesFree(s: Sys, t: nat, u: nat) returns (s': Sys)
    requires MutexInv(s) && !Entered(s) && !s.mutex.Free? && t < |s.callers| && s.callers[t].Joining?
    requires u < |s.callers| && s.callers[u].WantLock?
    ensures CanReturn(s, t, false) ||
            (Step(s, s') && MutexInv(s') && s'.mutex.Free? && |s'.callers| == |s.callers|
             && s'.callers[t].Joining? && s'.callers[u].WantLock?)
  {
    s' := s;
    if s.mutex.ByEvent? {
      if s.state.Running? {
        TestingExits(s, t, false);
      } else {
        s' := s.(event := Waiting, mutex := Free);
        EventKeepsMutex(s, s');
      }
    } else {
      var v := s.mutex.t;
      assert s.callers[v].HoldsMutex();
      if s.callers[v].Locked? {
        LockedExits(s, t, v);
      } else {
        s' := Unlocked(s, v);
        assert CallerStep(s, s', v);
        CallerKeepsMutex(s, s', v);
      }
    }
  }

  /** As long as some caller is not joining, it can still connect and so release the others. */
  lemma {:induction false} ConnectorExits(s: Sys, t: nat, u: nat)
    requires MutexInv(s) && t < |s.callers| && s.callers[t].Joining? && u < |s.callers| && !s.callers[u].Joining?
    ensures CanReturn(s, t, false)
    decreases StepsToLock(s.callers[u]), if s.mutex.Free? then 0 else 1
  {
    if Entered(s) {
      LoopExits(s, t, false);
    } else if s.callers[u].Locked? {
      LockedExits(s, t, u);
    } else if s.callers[u].WantLock? && !s.mutex.Free? {
      var s' := MutexComesFree(s, t, u);
      if !CanReturn(s, t, false) {
        ConnectorExits(s', t, u);
        OneMore(s, s', t, false);
      }
    } else {
      var s' := NextCall(s, u);
      assert CallerStep(s, s', u);
      CallerKeepsMutex(s, s', u);
      CallerMovesItself(s, s', u);
      ConnectorExits(s', t, u);
      OneMore(s, s', t, false);
    }
  }

  // ---------------------------------------------------------------- results

  /** A join can return without RUNNING being written again (as it cannot be when every caller is
      joining) exactly when the event thread has entered its loop, or the state is RUNNING and no
      caller holds the mutex in front of such a write. */
  lemma JoinReturnsIff(threads: nat, run: seq<Sys>, t: nat, quiet: bool)
    requires IsRun(threads, run) && t < |run[|run| - 1].callers| && run[|run| - 1].callers[t].Joining?
    requires quiet || AllJoining(run[|run| - 1])
    ensures CanReturn(run[|run| - 1], t, quiet)
       <==> LoopEntered in run[|run| - 1].trace || (run[|run| - 1].state.Running? && NobodyLocked(run[|run| - 1]))
  {
    RunKeepsInv(threads, run);
    var s := run[|run| - 1];
    if Entered(s) || (s.state.Running? && NobodyLocked(s)) {
      ReleasedExits(s, t, quiet);
    } else if CanReturn(s, t, quiet) {
      var n: nat :| Leaves(s, t, n, quiet);
      StuckNeverReturns(s, t, n, quiet);
    }
  }

  /** With every step allowed, a join can return exactly when the event thread has entered its loop,
      or the state is RUNNING, or some caller is not joining and so may still connect. */
  lemma JoinReturnsUnlessAllJoin(threads: nat, run: seq<Sys>, t: nat)
    requires IsRun(threads, run) && t < |run[|run| - 1].callers| && run[|run| - 1].callers[t].Joining?
    ensures CanReturn(run[|run| - 1], t, false)
       <==> LoopEntered in run[|run| - 1].trace || run[|run| - 1].state.Running? || !AllJoining(run[|run| - 1])
  {
    RunKeepsInv(threads, run);
    var s := run[|run| - 1];
    if AllJoining(s) {
      JoinReturnsIff(threads, run, t, false);
    } else {
      var u :| 0 <= u < |s.callers| && !s.callers[u].Joining?;
      ConnectorExits(s, t, u);
    }
  }

  // ---------------------------------------------------------------- the exit is inevitable

  /** The most moves the event thread still makes once it is on its way out. */
  function Distance(pc: EventPc): nat {
    match pc
    case Returning => 1
    case Leaving => 2
    case ReadState => 3
    case Head => 4
    case Thrown => 5
    case InCheck => 6
    case Failing => 6
    case Calling => 7
    case _ => 0
  }

  /** A move of the event thread; sends and receives failing inside one message check are not counted. */
  function Move(pc: EventPc, pc': EventPc): nat {
    if pc == pc' || (pc.InCheck? && pc'.Failing?) || (pc.Failing? && pc'.InCheck?) then 0 else 1
  }

  /** The number of its moves between two points of a run. */
  function Moves(run: seq<Sys>, k: nat, m: nat): nat
    requires k <= m < |run|
  {
    if k == m then 0 else Moves(run, k, m - 1) + Move(run[m - 1].event, run[m].event)
  }

  /** Past the last check: it returned false or threw, and has ended. */
  predicate Refused(s: Sys) {
    !s.processed && (s.event.Thrown? || s.event.Head? || s.event.ReadState? || s.event.Leaving? || s.event.Returning? || s.event.Dead?)
  }

  /** The thread is gone, or in its loop with the state off RUNNING or its last check refused. */
  ghost predicate Ending(s: Sys) {
    s.event.Dead? || (InLoop(s.event) && (!s.state.Running? || Refused(s)))
  }

  lemma EventNears(s: Sys, s': Sys)
    requires Ending(s) && EventStep(s, s')
    ensures Ending(s') && Distance(s'.event) + Move(s.event, s'.event) <= Distance(s.event)
  {
    EventMoves(s, s');
  }

  lemma CallerKeepsEnding(s: Sys, s': Sys, u: nat)
    requires MutexInv(s) && Ending(s) && u < |s.callers| && CallerStep(s, s', u)
    ensures Ending(s') && s'.event == s.event
  {
    CallerMoves(s, s', u);
    if !s.event.Dead? {
      assert s.mutex.ByEvent?;
      assert !s.callers[u].Locked?;
    }
  }

  /** Every step, whoever takes it, keeps the thread on its way out. */
  lemma StepNears(s: Sys, s': Sys)
    requires MutexInv(s) && Ending(s) && Step(s, s')
    ensures Ending(s') && Distance(s'.event) + Move(s.event, s'.event) <= Distance(s.event)
  {
    if EventStep(s, s') {
      EventNears(s, s');
    } else {
      var u :| 0 <= u < |s.callers| && CallerStep(s, s', u);
      CallerKeepsEnding(s, s', u);
    }
  }

  lemma PointInv(threads: nat, run: seq<Sys>, k: nat)
    requires IsRun(threads, run) && k < |run|
    ensures Inv(run[k])
  {
    var upTo := run[..k + 1];
    forall i {:trigger upTo[i + 1]} | 0 <= i < |upTo| - 1
      ensures Step(upTo[i], upTo[i + 1])
    {
      assert upTo[i + 1] == run[i + 1];
    }
    RunKeepsInv(threads, upTo);
  }

  lemma RunStep(threads: nat, run: seq<Sys>, m: nat)
    requires IsRun(threads, run) && 0 < m < |run|
    ensures Step(run[m - 1], run[m])
  {
    var i := m - 1;
    assert run[i + 1] == run[m];
  }

  lemma PointNears(threads: nat, run: seq<Sys>, m: nat, s: Sys, s': Sys)
    requires IsRun(threads, run) && 0 < m < |run| && s == run[m - 1] && s' == run[m] && Ending(s)
    ensures Ending(s') && Distance(s'.event) + Move(s.event, s'.event) <= Distance(s.event)
  {
    PointInv(threads, run, m - 1);
    RunStep(threads, run, m);
    StepNears(s, s');
  }

  lemma {:induction false} RunNears(threads: nat, run: seq<Sys>, k: nat, m: nat)
    requires IsRun(threads, run) && k <= m < |run| && Ending(run[k])
    ensures Ending(run[m]) && Moves(run, k, m) + Distance(run[m].event) <= Distance(run[k].event)
  {
    if k < m {
      RunNears(threads, run, k, m - 1);
      PointNears(threads, run, m, run[m - 1], run[m]);
    }
  }

  ghost predicate EventCanStep(s: Sys) {
    exists s' :: EventStep(s, s')
  }

  /** From a state on its way out, in every continuation the thread makes no more moves than its
      position allows, is gone when it has made them, and can always step until then. */
  lemma EndingExits(threads: nat, run: seq<Sys>, k: nat, m: nat)
    requires IsRun(threads, run) && k <= m < |run| && Ending(run[k])
    ensures Moves(run, k, m) <= Distance(run[k].event)
    ensures Moves(run, k, m) == Distance(run[k].event) ==> run[m].event.Dead?
    ensures run[m].event.Dead? || EventCanStep(run[m])
  {
    RunNears(threads, run, k, m);
    if !run[m].event.Dead? {
      assert EventStep(run[m], NextEvent(run[m]));
    }
  }

  /** The exit is inevitable: once the loop was entered and the state is off RUNNING, whatever the
      callers do, the event thread makes at most seven more moves; until it is gone it can always make
      a step; and once it is gone every join can return at once. */
  lemma ExitIsInevitable(threads: nat, run: seq<Sys>, k: nat, m: nat)
    requires IsRun(threads, run) && k <= m < |run|
    requires LoopEntered in run[k].trace && !run[k].state.Running?
    ensures Moves(run, k, m) <= Distance(run[k].event) <= 7
    ensures Moves(run, k, m) == Distance(run[k].event) ==> run[m].event.Dead?
    ensures run[m].event.Dead? || EventCanStep(run[m])
    ensures forall t :: run[m].event.Dead? && 0 <= t < |run[m].callers| && run[m].callers[t].Joining? ==>
              Leaves(run[m], t, 1, true)
  {
    PointInv(threads, run, k);
    EndingExits(threads, run, k, m);
    forall t | run[m].event.Dead? && 0 <= t < |run[m].callers| && run[m].callers[t].Joining?
      ensures Leaves(run[m], t, 1, true)
    {
      DeadLeaves(run[m], t, true);
    }
  }

  lemma DeadLeaves(s: Sys, t: nat, quiet: bool)
    requires s.event.Dead? && t < |s.callers| && s.callers[t].Joining?
    ensures Leaves(s, t, 1, quiet)
  {
    var s' := At(s, t, Finishing).(trace := Log(s, Joined(t)));
    assert CallerStep(s, s', t) && Allowed(s, s', quiet);
    assert Leaves(s', t, 0, quiet);
  }

  // ---------------------------------------------------------------- two runs that hang

  lemma RunSnoc(threads: nat, run: seq<Sys>, t: nat, s': Sys)
    requires IsRun(threads, run) && t < |run[|run| - 1].callers| && CallerStep(run[|run| - 1], s', t)
    ensures IsRun(threads, run + [s'])
  {
    var longer := run + [s'];
    forall i {:trigger longer[i + 1]} | 0 <= i < |longer| - 1
      ensures Step(longer[i], longer[i + 1])
    {
      if i < |run| - 1 {
        assert longer[i + 1] == run[i + 1];
      }
    }
  }

  /** A caller's Disconnect, up to its join. */
  lemma Disconnects(threads: nat, run: seq<Sys>) returns (run': seq<Sys>)
    requires IsRun(threads, run) && |run[|run| - 1].callers| == 1 && run[|run| - 1].callers[0].Ready?
    ensures IsRun(threads, run')
    ensures run'[|run'| - 1].callers == [Joining] && run'[|run'| - 1].state == Stopping && run'[|run'| - 1].event == run[|run| - 1].event
    ensures run'[|run'| - 1].trace == run[|run| - 1].trace + [DisconnectBegan(0)] + [WentOff(Stopping)]
  {
    var s0 := run[|run| - 1];
    var s1 := At(s0, 0, Disconnecting).(trace := Log(s0, DisconnectBegan(0)));
    RunSnoc(threads, run, 0, s1);
    var s2 := At(s1, 0, Closing).(state := Stopping, trace := Log(s1, WentOff(Stopping)));
    RunSnoc(threads, run + [s1], 0, s2);
    var s3 := At(s2, 0, Joining);
    RunSnoc(threads, run + [s1] + [s2], 0, s3);
    run' := run + [s1] + [s2] + [s3];
  }

  /** A caller's successful Connect. */
  lemma Connects(threads: nat, run: seq<Sys>) returns (run': seq<Sys>)
    requires IsRun(threads, run) && |run[|run| - 1].callers| == 1 && run[|run| - 1].callers[0].Ready? && run[|run| - 1].mutex.Free?
    ensures IsRun(threads, run')
    ensures run'[|run'| - 1] == run[|run| - 1].(state := Running, socketOk := true, mutex := Free,
                                               trace := run[|run| - 1].trace + [SocketConnected(0)] + [WentRunning(0)])
    ensures run'[|run'| - 1].trace == run[|run| - 1].trace + [SocketConnected(0)] + [WentRunning(0)]
  {
    var s0 := run[|run| - 1];
    var s1 := At(s0, 0, Connecting);
    RunSnoc(threads, run, 0, s1);
    var s2 := At(s1, 0, Greeting).(socketOk := true, trace := Log(s1, SocketConnected(0)));
    RunSnoc(threads, run + [s1], 0, s2);
    var s3 := At(s2, 0, WantLock);
    RunSnoc(threads, run + [s1] + [s2], 0, s3);
    var s4 := At(s3, 0, Locked).(mutex := ByCaller(0));
    RunSnoc(threads, run + [s1] + [s2] + [s3], 0, s4);
    run' := run + [s1] + [s2] + [s3] + [s4];
    var s5 := At(s4, 0, Releasing).(state := Running, trace := Log(s4, WentRunning(0)));
    RunSnoc(threads, run', 0, s5);
    var s6 := At(s5, 0, Ready).(mutex := Free);
    RunSnoc(threads, run' + [s5], 0, s6);
    run' := run' + [s5] + [s6];
  }

  /** A lone caller that disconnects without having connected hangs: no continuation returns. */
  lemma UnconnectedDisconnectHangs() returns (run: seq<Sys>)
    ensures IsRun(1, run) && run[|run| - 1].callers == [Joining] && run[|run| - 1].trace == [DisconnectBegan(0), WentOff(Stopping)]
    ensures !CanReturn(run[|run| - 1], 0, false)
  {
    run := [Initial(1)];
    run := Disconnects(1, run);
    JoinReturnsIff(1, run, 0, false);
  }

  /** So does one that connects and disconnects again before the event thread has tested the state,
      although its Connect succeeded. */
  lemma QuickDisconnectHangs() returns (run: seq<Sys>)
    ensures IsRun(1, run) && run[|run| - 1].callers == [Joining]
    ensures SuccessfulConnect(run[|run| - 1].trace) && !CanReturn(run[|run| - 1], 0, false)
  {
    run := [Initial(1)];
    run := Connects(1, run);
    run := Disconnects(1, run);
    var tr := run[|run| - 1].trace;
    assert SocketConnected(0) in tr && WentRunning(0) in tr;
    JoinReturnsIff(1, run, 0, false);
  }

  // ---------------------------------------------------------------- one whole session

  lemma EventSnoc(threads: nat, run: seq<Sys>, s': Sys)
    requires IsRun(threads, run) && EventStep(run[|run| - 1], s')
    ensures IsRun(threads, run + [s'])
  {
    var longer := run + [s'];
    forall i {:trigger longer[i + 1]} | 0 <= i < |longer| - 1
      ensures Step(longer[i], longer[i + 1])
    {
      if i < |run| - 1 {
        assert longer[i + 1] == run[i + 1];
      }
    }
  }

  /** A connected driver's event thread comes to its first check. */
  lemma FirstCheck(threads: nat, run: seq<Sys>) returns (run': seq<Sys>)
    requires IsRun(threads, run)
    requires var s := run[|run| - 1]; s.event.Unborn? && s.mutex.Free? && s.state.Running? && s.socketOk
    ensures IsRun(threads, run')
    ensures run'[|run'| - 1] == run[|run| - 1].(event := InCheck, mutex := ByEvent, processed := true,
              trace := run[|run| - 1].trace + [ThreadStart] + [LoopEntered] + [SawSocket(true)] + [SawState(true)] + [CheckBegin])
  {
    var s0 := run[|run| - 1];
    var s1 := s0.(event := Locking, trace := Log(s0, ThreadStart));
    EventSnoc(threads, run, s1);
    var s2 := s1.(event := Testing, mutex := ByEvent);
    EventSnoc(threads, run + [s1], s2);
    var s3 := s2.(event := Head, processed := true, trace := Log(s2, LoopEntered));
    run' := run + [s1] + [s2];
    EventSnoc(threads, run', s3);
    var s4 := s3.(event := ReadState, trace := Log(s3, SawSocket(true)));
    EventSnoc(threads, run' + [s3], s4);
    run' := run' + [s3] + [s4];
    var s5 := s4.(event := Calling, trace := Log(s4, SawState(true)));
    EventSnoc(threads, run', s5);
    var s6 := s5.(event := InCheck, trace := Log(s5, CheckBegin));
    EventSnoc(threads, run' + [s5], s6);
    run' := run' + [s5] + [s6];
  }

  /** A check that returns false takes the thread out, although socket and state are as they were. */
  lemma LastCheck(threads: nat, run: seq<Sys>) returns (run': seq<Sys>)
    requires IsRun(threads, run)
    requires var s := run[|run| - 1]; s.event.InCheck? && s.state.Running? && s.socketOk
    ensures IsRun(threads, run')
    ensures run'[|run'| - 1] == run[|run| - 1].(event := Dead, mutex := Free, processed := false,
              trace := run[|run| - 1].trace + [CheckEnd(false)] + [SawSocket(true)] + [SawState(true)] + [ThreadStop] + [ThreadExit])
  {
    var s0 := run[|run| - 1];
    var s1 := s0.(event := Head, processed := false, trace := Log(s0, CheckEnd(false)));
    EventSnoc(threads, run, s1);
    var s2 := s1.(event := ReadState, trace := Log(s1, SawSocket(true)));
    EventSnoc(threads, run + [s1], s2);
    run' := run + [s1] + [s2];
    var s3 := s2.(event := Leaving, trace := Log(s2, SawState(true)));
    EventSnoc(threads, run', s3);
    var s4 := s3.(event := Returning, trace := Log(s3, ThreadStop));
    EventSnoc(threads, run' + [s3], s4);
    run' := run' + [s3] + [s4];
    var s5 := s4.(event := Dead, mutex := Free, trace := Log(s4, ThreadExit));
    EventSnoc(threads, run', s5);
    run' := run' + [s5];
  }

  /** A session from start to end: connect, one check that returns false, stop, disconnect. It ends with
      the state STOPPED and the caller free, and this is all that is observed. */
  lemma WholeSession() returns (run: seq<Sys>)
    ensures IsRun(1, run) && run[|run| - 1].state == Stopped && run[|run| - 1].callers == [Ready] && run[|run| - 1].event.Dead?
    ensures run[|run| - 1].trace ==
            [SocketConnected(0), WentRunning(0), ThreadStart, LoopEntered, SawSocket(true), SawState(true), CheckBegin, CheckEnd(false),
             SawSocket(true), SawState(true), ThreadStop, ThreadExit, DisconnectBegan(0), WentOff(Stopping), Joined(0), WentOff(Stopped)]
  {
    run := [Initial(1)];
    run := Connects(1, run);
    run := FirstCheck(1, run);
    run := LastCheck(1, run);
    run := Disconnects(1, run);
    var s0 := run[|run| - 1];
    var s1 := At(s0, 0, Finishing).(trace := Log(s0, Joined(0)));
    RunSnoc(1, run, 0, s1);
    var s2 := At(s1, 0, Ready).(state := Stopped, trace := Log(s1, WentOff(Stopped)));
    RunSnoc(1, run + [s1], 0, s2);
    run := run + [s1] + [s2];
  }
}
