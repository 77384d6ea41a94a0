/** The connection driver: any number of caller threads and one event thread share `state_` and
    `socketOk_`; the event thread holds the mutex from the moment its wait ends until it returns.
    Every shared read and write is a step of its own, and steps interleave freely. */
module ClientDriver {

  datatype Phase = Starting | Running | Stopping | Stopped

  datatype Owner = Free | ByEvent | ByCaller(t: nat)

  /** Where the event thread is in `block`. */
  datatype EventPc =
    | Unborn        // before onEventThreadStart
    | Locking       // about to lock the mutex
    | Testing       // mutex held, about to test state_ != RUNNING
    | Waiting       // in the condition variable's wait, mutex released
    | Head          // loop head, about to read socketOk_
    | ReadState     // socketOk_ was true, about to read state_
    | Calling       // both tests passed, about to call CheckMessages
    | InCheck       // inside CheckMessages
    | Failing       // a send or receive inside it failed, about to write state_
    | Thrown        // CheckMessages threw, about to write state_
    | Leaving       // loop left, before onEventThreadStop
    | Returning     // after onEventThreadStop, mutex still held
    | Dead          // thread finished

  /** Where a caller thread is in Connect, Disconnect, Send or Receive. */
  datatype CallerPc =
    | Ready
    | Connecting                // in socket_.connect
    | Greeting                  // socketOk_ set, in OnConnect
    | WantLock                  // about to lock the mutex
    | Locked                    // about to write RUNNING
    | Releasing                 // about to unlock
    | SendFailed(greeting: bool)  // socketOk_ cleared, about to write STOPPING
    | Disconnecting             // about to write STOPPING
    | Closing                   // in closeSocket
    | Joining                   // in thread_->join
    | Finishing                 // about to write STOPPED
  {
    predicate HoldsMutex() {
      Locked? || Releasing?
    }

    /** Its own socket_.connect has succeeded and RUNNING is not written yet. */
    predicate HasSocket() {
      Greeting? || WantLock? || Locked? || (SendFailed? && greeting)
    }
  }

  datatype Observation =
    | ThreadStart | LoopEntered
    | SawSocket(ok: bool)       // the loop's read of socketOk_
    | SawState(running: bool)   // the loop's read of state_ == RUNNING
    | CheckBegin
    | CheckEnd(more: bool)      // CheckMessages returned `more`, or threw (false)
    | ThreadStop | ThreadExit
    | EventError                // a send or receive inside a check failed
    | SendError(t: nat)         // a caller's send or receive failed
    | ConnectError(t: nat)      // a caller's connect, or its greeting, threw
    | DisconnectBegan(t: nat)
    | SocketConnected(t: nat)
    | WentRunning(t: nat)
    | WentOff(phase: Phase)
    | Joined(t: nat)
  {
    predicate ByEventThread() {
      ThreadStart? || LoopEntered? || SawSocket? || SawState? || CheckBegin? || CheckEnd? || ThreadStop? || ThreadExit?
    }
  }

  datatype Sys = Sys(state: Phase, socketOk: bool, mutex: Owner, event: EventPc, processed: bool,
                     callers: seq<CallerPc>, checks: nat, trace: seq<Observation>)

  function Initial(threads: nat): Sys {
    Sys(Starting, false, Free, Unborn, true, seq(threads, _ => Ready), 0, [])
  }

  function Log(s: Sys, o: Observation): seq<Observation> {
    s.trace + [o]
  }

  // ---------------------------------------------------------------- steps

  ghost predicate EventStep(s: Sys, s': Sys) {
    match s.event
    case Unborn => s' == s.(event := Locking, trace := Log(s, ThreadStart))
    case Locking => s.mutex.Free? && s' == s.(event := Testing, mutex := ByEvent)
    case Testing =>
      if s.state.Running? then s' == s.(event := Head, processed := true, trace := Log(s, LoopEntered))
      else s' == s.(event := Waiting, mutex := Free)
    case Waiting => s.mutex.Free? && s' == s.(event := Testing, mutex := ByEvent)
    case Head => s' == s.(event := if s.socketOk then ReadState else Leaving, trace := Log(s, SawSocket(s.socketOk)))
    case ReadState =>
      s' == s.(event := if s.state.Running? && s.processed then Calling else Leaving, trace := Log(s, SawState(s.state.Running?)))
    case Calling => s' == s.(event := InCheck, trace := Log(s, CheckBegin))
    case InCheck =>
      || s' == s.(event := Head, processed := true, checks := s.checks + 1, trace := Log(s, CheckEnd(true)))
      || s' == s.(event := Head, processed := false, trace := Log(s, CheckEnd(false)))
      || s' == s.(event := Thrown, processed := false, trace := Log(s, CheckEnd(false)))
      || s' == s.(event := Failing, socketOk := false, trace := Log(s, EventError))
    case Failing => s' == s.(event := InCheck, state := Stopping, trace := Log(s, WentOff(Stopping)))
    case Thrown => s' == s.(event := Head, state := Stopping, trace := Log(s, WentOff(Stopping)))
    case Leaving => s' == s.(event := Returning, trace := Log(s, ThreadStop))
    case Returning => s' == s.(event := Dead, mutex := Free, trace := Log(s, ThreadExit))
    case Dead => false
  }

  ghost predicate CallerStep(s: Sys, s': Sys, t: nat)
    requires t < |s.callers|
  {
    match s.callers[t]
    case Ready =>
      || s' == At(s, t, Connecting)
      || s' == At(s, t, Disconnecting).(trace := Log(s, DisconnectBegan(t)))
      || s' == At(s, t, SendFailed(false)).(socketOk := false, trace := Log(s, SendError(t)))
    case Connecting =>
      || s' == At(s, t, Greeting).(socketOk := true, trace := Log(s, SocketConnected(t)))
      || s' == At(s, t, Ready).(socketOk := false, trace := Log(s, ConnectError(t)))
    case Greeting =>
      || s' == At(s, t, WantLock)
      || s' == At(s, t, SendFailed(true)).(socketOk := false, trace := Log(s, SendError(t)))
      || s' == At(s, t, Ready).(socketOk := false, trace := Log(s, ConnectError(t)))
    case WantLock => s.mutex.Free? && s' == At(s, t, Locked).(mutex := ByCaller(t))
    case Locked => s' == At(s, t, Releasing).(state := Running, trace := Log(s, WentRunning(t)))
    case Releasing => s' == At(s, t, Ready).(mutex := Free)
    case SendFailed(greeting) =>
      s' == At(s, t, if greeting then Greeting else Ready).(state := Stopping, trace := Log(s, WentOff(Stopping)))
    case Disconnecting => s' == At(s, t, Closing).(state := Stopping, trace := Log(s, WentOff(Stopping)))
    case Closing => s' == At(s, t, Joining) || s' == At(s, t, Finishing)
    case Joining => s.event.Dead? && s' == At(s, t, Finishing).(trace := Log(s, Joined(t)))
    case Finishing => s' == At(s, t, Ready).(state := Stopped, trace := Log(s, WentOff(Stopped)))
  }

  function At(s: Sys, t: nat, pc: CallerPc): Sys
    requires t < |s.callers|
  {
    s.(callers := s.callers[t := pc])
  }

  ghost predicate Step(s: Sys, s': Sys) {
    EventStep(s, s') || exists t :: 0 <= t < |s.callers| && CallerStep(s, s', t)
  }

  ghost predicate IsRun(threads: nat, run: seq<Sys>) {
    && run != [] && run[0] == Initial(threads)
    && forall i {:trigger run[i + 1]} :: 0 <= i < |run| - 1 ==> Step(run[i], run[i + 1])
  }

  // ---------------------------------------------------------------- what a trace says

  /** The driver was moved off RUNNING after the loop was entered. */
  predicate OffInLoop(tr: seq<Observation>) {
    tr != [] && (OffInLoop(tr[..|tr| - 1]) || (LoopEntered in tr[..|tr| - 1] && tr[|tr| - 1].WentOff?))
  }

  /** How many message checks began after that. */
  function ChecksAfterOff(tr: seq<Observation>): nat {
    if tr == [] then 0
    else ChecksAfterOff(tr[..|tr| - 1]) + if OffInLoop(tr[..|tr| - 1]) && tr[|tr| - 1].CheckBegin? then 1 else 0
  }

  /** RUNNING was written between entering the loop and the thread's exit. */
  predicate BackToRunning(tr: seq<Observation>) {
    tr != [] && (BackToRunning(tr[..|tr| - 1])
                 || (LoopEntered in tr[..|tr| - 1] && ThreadExit !in tr[..|tr| - 1] && tr[|tr| - 1].WentRunning?))
  }

  /** A caller connected its socket and then wrote RUNNING. */
  ghost predicate SuccessfulConnect(tr: seq<Observation>) {
    exists t :: SocketConnected(t) in tr && WentRunning(t) in tr
  }

  /** The event thread's own observations, in order. */
  function EventTrace(tr: seq<Observation>): seq<Observation> {
    if tr == [] then [] else
      var o := tr[|tr| - 1];
      EventTrace(tr[..|tr| - 1]) +
      if o.ByEventThread() then [o] else []
  }

  /** One turn of the loop whose check returned `more`. */
  function Turn(more: bool): seq<Observation> {
    [SawSocket(true), SawState(true), CheckBegin, CheckEnd(more)]
  }

  function Turns(n: nat): seq<Observation> {
    if n == 0 then [] else Turns(n - 1) + Turn(true)
  }

  /** Up to a loop head: `n` turns whose check returned true and, if `more` is false, one that did not. */
  function UpToHead(n: nat, more: bool): seq<Observation> {
    [ThreadStart, LoopEntered] + Turns(n) + if more then [] else Turn(false)
  }

  /** How the loop is left: the socket is not ok, or the state is off RUNNING, or the last check returned
      false. */
  predicate IsExit(exit: seq<Observation>, more: bool) {
    exit == [SawSocket(false)] || exit == [SawSocket(true), SawState(false)] || (!more && exit == [SawSocket(true), SawState(true)])
  }

  ghost predicate Exited(et: seq<Observation>, n: nat, more: bool, rest: seq<Observation>) {
    exists exit :: IsExit(exit, more) && et == UpToHead(n, more) + exit + rest
  }

  /** What the event thread has observed when it is at `pc` with `n` checks that returned true. */
  ghost predicate StoryFits(et: seq<Observation>, pc: EventPc, more: bool, n: nat) {
    match pc
    case Unborn => et == [] && n == 0
    case Locking | Testing | Waiting => et == [ThreadStart] && n == 0
    case Head => et == UpToHead(n, more)
    case Thrown => !more && et == UpToHead(n, false)
    case ReadState => et == UpToHead(n, more) + [SawSocket(true)]
    case Calling => more && et == UpToHead(n, true) + [SawSocket(true), SawState(true)]
    case InCheck | Failing => more && et == UpToHead(n, true) + [SawSocket(true), SawState(true), CheckBegin]
    case Leaving => Exited(et, n, more, [])
    case Returning => Exited(et, n, more, [ThreadStop])
    case Dead => Exited(et, n, more, [ThreadStop, ThreadExit])
  }

  // ---------------------------------------------------------------- invariants

  predicate InLoop(pc: EventPc) {
    pc.Head? || pc.ReadState? || pc.Calling? || pc.InCheck? || pc.Failing? || pc.Thrown? || pc.Leaving? || pc.Returning?
  }

  /** The mutex is held by exactly the thread whose position says so. */
  ghost predicate MutexInv(s: Sys) {
    && (s.mutex.ByEvent? <==> s.event.Testing? || InLoop(s.event))
    && (s.mutex.ByCaller? ==> s.mutex.t < |s.callers|)
    && (forall t :: 0 <= t < |s.callers| ==> (s.mutex == ByCaller(t) <==> s.callers[t].HoldsMutex()))
  }

  /** What the trace may say when the event thread is at `pc` and the state is `state`. */
  ghost predicate TraceFits(pc: EventPc, state: Phase, tr: seq<Observation>) {
    && (LoopEntered in tr <==> InLoop(pc) || pc.Dead?)
    && (ThreadExit in tr <==> pc.Dead?)
    && (OffInLoop(tr) ==> LoopEntered in tr)
    && (OffInLoop(tr) && InLoop(pc) ==> !state.Running?)
    && !BackToRunning(tr)
    && (!OffInLoop(tr) || pc.Calling? ==> ChecksAfterOff(tr) == 0)
    && ChecksAfterOff(tr) <= 1
  }

  ghost predicate TraceInv(s: Sys) {
    TraceFits(s.event, s.state, s.trace)
  }

  ghost predicate StoryInv(s: Sys) {
    StoryFits(EventTrace(s.trace), s.event, s.processed, s.checks)
  }

  ghost predicate SocketsInv(s: Sys) {
    forall t :: 0 <= t < |s.callers| && s.callers[t].HasSocket() ==> SocketConnected(t) in s.trace
  }

  /** Running, looping and checking come after a successful connect; joining after the exit. */
  ghost predicate ConnectFits(pc: EventPc, state: Phase, tr: seq<Observation>) {
    && (state.Running? || InLoop(pc) || pc.Dead? ==> SuccessfulConnect(tr))
    && (forall i :: 0 <= i < |tr| && tr[i].CheckBegin? ==> SuccessfulConnect(tr[..i]))
    && (forall t :: Joined(t) in tr ==> pc.Dead?)
  }

  ghost predicate ConnectInv(s: Sys) {
    SocketsInv(s) && ConnectFits(s.event, s.state, s.trace)
  }

  lemma EventKeepsMutex(s: Sys, s': Sys)
    requires MutexInv(s) && EventStep(s, s')
    ensures MutexInv(s')
  {
  }

  /** A caller changes no other caller's position and not the event thread's. */
  lemma CallerMovesItself(s: Sys, s': Sys, t: nat)
    requires t < |s.callers| && CallerStep(s, s', t)
    ensures s'.event == s.event && |s'.callers| == |s.callers|
    ensures forall u :: 0 <= u < |s.callers| && u != t ==> s'.callers[u] == s.callers[u]
  {
  }

  /** A caller keeps the mutex as it is, takes it when free, or gives it back. */
  lemma CallerLocks(s: Sys, s': Sys, t: nat)
    requires t < |s.callers| && CallerStep(s, s', t) && |s'.callers| == |s.callers|
    ensures || (s'.mutex == s.mutex && (s'.callers[t].HoldsMutex() <==> s.callers[t].HoldsMutex()))
            || (s.mutex.Free? && s'.mutex == ByCaller(t) && s'.callers[t].HoldsMutex())
            || (s.callers[t].HoldsMutex() && s'.mutex.Free? && !s'.callers[t].HoldsMutex())
  {
  }

  lemma CallerKeepsMutex(s: Sys, s': Sys, t: nat)
    requires MutexInv(s) && t < |s.callers| && CallerStep(s, s', t)
    ensures MutexInv(s')
  {
    CallerMovesItself(s, s', t);
    CallerLocks(s, s', t);
    assert s.mutex == ByCaller(t) <==> s.callers[t].HoldsMutex();
    forall u | 0 <= u < |s'.callers|
      ensures s'.mutex == ByCaller(u) <==> s'.callers[u].HoldsMutex()
    {
      assert s.mutex == ByCaller(u) <==> s.callers[u].HoldsMutex();
    }
  }

  lemma Extend(tr: seq<Observation>, o: Observation)
    ensures (tr + [o])[..|tr|] == tr && (tr + [o])[|tr|] == o
    ensures OffInLoop(tr + [o]) == (OffInLoop(tr) || (LoopEntered in tr && o.WentOff?))
    ensures ChecksAfterOff(tr + [o]) == ChecksAfterOff(tr) + if OffInLoop(tr) && o.CheckBegin? then 1 else 0
    ensures BackToRunning(tr + [o]) == (BackToRunning(tr) || (LoopEntered in tr && ThreadExit !in tr && o.WentRunning?))
    ensures forall x :: x in tr + [o] <==> x in tr || x == o
  {
    assert (tr + [o])[..|tr|] == tr;
  }

  lemma ExtendTells(tr: seq<Observation>, o: Observation)
    ensures EventTrace(tr + [o]) == EventTrace(tr) + if o.ByEventThread() then [o] else []
  {
    assert (tr + [o])[..|tr|] == tr;
  }

  /** What the event thread's step logs. */
  function Logged(tr: seq<Observation>, tr': seq<Observation>): seq<Observation> {
    if |tr| <= |tr'| then tr'[|tr|..] else []
  }

  /** The event thread's moves as seen in its position, the last check's result, the state and what it
      logs. */
  ghost predicate EventMove(pc: EventPc, more: bool, state: Phase, pc': EventPc, more': bool, state': Phase, log: seq<Observation>) {
    match pc
    case Unborn => pc' == Locking && state' == state && more' == more && log == [ThreadStart]
    case Locking => pc' == Testing && state' == state && more' == more && log == []
    case Testing =>
      state' == state && if state.Running? then pc' == Head && more' && log == [LoopEntered] else pc' == Waiting && more' == more && log == []
    case Waiting => pc' == Testing && state' == state && more' == more && log == []
    case Head =>
      state' == state && more' == more &&
      ((pc'.ReadState? && log == [SawSocket(true)]) || (pc'.Leaving? && log == [SawSocket(false)]))
    case ReadState =>
      state' == state && more' == more && log == [SawState(state.Running?)] && pc' == if state.Running? && more then Calling else Leaving
    case Calling => pc' == InCheck && state' == state && more' == more && log == [CheckBegin]
    case InCheck =>
      state' == state && ( || (pc'.Head? && log == [CheckEnd(more')])
                           || (pc'.Thrown? && !more' && log == [CheckEnd(false)])
                           || (pc'.Failing? && more' == more && log == [EventError]))
    case Failing => pc' == InCheck && state' == Stopping && more' == more && log == [WentOff(Stopping)]
    case Thrown => pc' == Head && state' == Stopping && more' == more && log == [WentOff(Stopping)]
    case Leaving => pc' == Returning && state' == state && more' == more && log == [ThreadStop]
    case Returning => pc' == Dead && state' == state && more' == more && log == [ThreadExit]
    case Dead => false
  }

  lemma EventMoves(s: Sys, s': Sys)
    requires EventStep(s, s')
    ensures EventMove(s.event, s.processed, s.state, s'.event, s'.processed, s'.state, Logged(s.trace, s'.trace))
    ensures s'.trace == s.trace + Logged(s.trace, s'.trace) && s'.callers == s.callers
    ensures s'.checks == s.checks + if Logged(s.trace, s'.trace) == [CheckEnd(true)] then 1 else 0
  {
  }

  /** A caller's step as seen there: it never moves the event thread; it logs nothing, or a socket
      connection, an error, the begin of a disconnect or a join without touching the state, or it writes the state. RUNNING is written
      with the mutex held. */
  ghost predicate CallerMove(s: Sys, s': Sys, t: nat) {
    && s'.event == s.event && s'.checks == s.checks && s'.processed == s.processed
    && ( || (s'.trace == s.trace && s'.state == s.state)
         || (s'.trace == s.trace + [SocketConnected(t)] && s'.state == s.state)
         || (s'.trace == s.trace + [ConnectError(t)] && s'.state == s.state)
         || (s'.trace == s.trace + [SendError(t)] && s'.state == s.state && t < |s'.callers| && s'.callers[t].SendFailed?)
         || (s'.trace == s.trace + [DisconnectBegan(t)] && s'.state == s.state && t < |s'.callers| && s'.callers[t].Disconnecting?)
         || (s'.trace == s.trace + [Joined(t)] && s'.state == s.state && s.event.Dead?)
         || (s'.trace == s.trace + [WentRunning(t)] && s'.state == Running && t < |s.callers| && s.callers[t].Locked?)
         || (s'.trace == s.trace + [WentOff(Stopping)] && s'.state == Stopping)
         || (s'.trace == s.trace + [WentOff(Stopped)] && s'.state == Stopped))
  }

  lemma CallerMoves(s: Sys, s': Sys, t: nat)
    requires t < |s.callers| && CallerStep(s, s', t)
    ensures CallerMove(s, s', t)
  {
  }

  lemma EventMoveFits(pc: EventPc, more: bool, state: Phase, tr: seq<Observation>, pc': EventPc, more': bool, state': Phase,
                      log: seq<Observation>)
    requires TraceFits(pc, state, tr) && EventMove(pc, more, state, pc', more', state', log)
    ensures TraceFits(pc', state', tr + log)
  {
    if log == [] {
      assert tr + log == tr;
    } else {
      Extend(tr, log[0]);
      assert log == [log[0]];
    }
  }

  lemma EventKeepsTrace(s: Sys, s': Sys)
    requires TraceInv(s) && EventStep(s, s')
    ensures TraceInv(s')
  {
    EventMoves(s, s');
    EventMoveFits(s.event, s.processed, s.state, s.trace, s'.event, s'.processed, s'.state, Logged(s.trace, s'.trace));
  }

  lemma CallerKeepsTrace(s: Sys, s': Sys, t: nat)
    requires MutexInv(s) && TraceInv(s) && t < |s.callers| && CallerStep(s, s', t)
    ensures TraceInv(s')
  {
    CallerMoves(s, s', t);
    assert s.callers[t].Locked? ==> !s.mutex.ByEvent?;
    if s'.trace != s.trace {
      var o := s'.trace[|s.trace|];
      assert s'.trace == s.trace + [o];
      CallerLogFits(s.event, s.state, s.trace, s'.state, o);
    }
  }

  /** What a caller may log without upsetting the fit. */
  lemma CallerLogFits(pc: EventPc, state: Phase, tr: seq<Observation>, state': Phase, o: Observation)
    requires TraceFits(pc, state, tr) && !o.ByEventThread()
    requires state' == (if o.WentRunning? then Running else if o.WentOff? then o.phase else state)
    requires o.WentRunning? ==> !InLoop(pc)
    requires o.WentOff? ==> !o.phase.Running?
    ensures TraceFits(pc, state', tr + [o])
  {
    Extend(tr, o);
  }

  lemma StoryStarts(et: seq<Observation>, pc: EventPc, more: bool, n: nat, state: Phase, pc': EventPc, more': bool, state': Phase,
                    log: seq<Observation>, n': nat)
    requires StoryFits(et, pc, more, n) && EventMove(pc, more, state, pc', more', state', log)
    requires n' == n + if log == [CheckEnd(true)] then 1 else 0
    requires pc.Unborn? || pc.Locking? || pc.Testing? || pc.Waiting?
    ensures StoryFits(et + if log != [] && log[0].ByEventThread() then log else [], pc', more', n')
  {
    if pc.Testing? {
      EnteringTells(n);
    } else {
      assert et + [] == et;
    }
  }

  lemma StoryTurns(et: seq<Observation>, pc: EventPc, more: bool, n: nat, state: Phase, pc': EventPc, more': bool, state': Phase,
                    log: seq<Observation>, n': nat)
    requires StoryFits(et, pc, more, n) && EventMove(pc, more, state, pc', more', state', log)
    requires n' == n + if log == [CheckEnd(true)] then 1 else 0
    requires pc.Calling? || pc.InCheck? || pc.Failing? || pc.Thrown?
    ensures StoryFits(et + if log != [] && log[0].ByEventThread() then log else [], pc', more', n')
  {
    if pc.Calling? {
      assert UpToHead(n, true) + [SawSocket(true), SawState(true)] + [CheckBegin]
          == UpToHead(n, true) + [SawSocket(true), SawState(true), CheckBegin];
    } else if pc.InCheck? {
      TurnEnds(n);
    } else {
      assert et + [] == et;
    }
  }

  lemma StoryLeaves(et: seq<Observation>, pc: EventPc, more: bool, n: nat, state: Phase, pc': EventPc, more': bool, state': Phase,
                    log: seq<Observation>, n': nat)
    requires StoryFits(et, pc, more, n) && EventMove(pc, more, state, pc', more', state', log)
    requires n' == n + if log == [CheckEnd(true)] then 1 else 0
    requires pc.Head? || pc.ReadState?
    ensures StoryFits(et + if log != [] && log[0].ByEventThread() then log else [], pc', more', n')
  {
    if pc.Head? {
      LeavingTells(et, n, more, [], log);
    } else {
      LeavingTells(et, n, more, [SawSocket(true)], log);
    }
  }

  lemma StoryEnds(et: seq<Observation>, pc: EventPc, more: bool, n: nat, state: Phase, pc': EventPc, more': bool, state': Phase,
                    log: seq<Observation>, n': nat)
    requires StoryFits(et, pc, more, n) && EventMove(pc, more, state, pc', more', state', log)
    requires n' == n + if log == [CheckEnd(true)] then 1 else 0
    requires pc.Leaving? || pc.Returning?
    ensures StoryFits(et + if log != [] && log[0].ByEventThread() then log else [], pc', more', n')
  {
    if pc.Leaving? {
      ExitedTells(et, n, more, [], ThreadStop);
    } else {
      ExitedTells(et, n, more, [ThreadStop], ThreadExit);
    }
  }

  /** One observation of the event thread goes on with its story. */
  lemma StoryGoesOn(et: seq<Observation>, pc: EventPc, more: bool, n: nat, state: Phase, pc': EventPc, more': bool, state': Phase,
                    log: seq<Observation>, n': nat)
    requires StoryFits(et, pc, more, n) && EventMove(pc, more, state, pc', more', state', log)
    requires n' == n + if log == [CheckEnd(true)] then 1 else 0
    ensures StoryFits(et + if log != [] && log[0].ByEventThread() then log else [], pc', more', n')
  {
    if pc.Unborn? || pc.Locking? || pc.Testing? || pc.Waiting? {
      StoryStarts(et, pc, more, n, state, pc', more', state', log, n');
    } else if pc.Calling? || pc.InCheck? || pc.Failing? || pc.Thrown? {
      StoryTurns(et, pc, more, n, state, pc', more', state', log, n');
    } else if pc.Head? || pc.ReadState? {
      StoryLeaves(et, pc, more, n, state, pc', more', state', log, n');
    } else {
      StoryEnds(et, pc, more, n, state, pc', more', state', log, n');
    }
  }

  lemma EnteringTells(n: nat)
    ensures n == 0 ==> [ThreadStart] + [LoopEntered] == UpToHead(n, true)
    ensures [ThreadStart] + [] == [ThreadStart]
  {
  }

  lemma TurnEnds(n: nat)
    ensures UpToHead(n, true) + [SawSocket(true), SawState(true), CheckBegin] + [CheckEnd(true)] == UpToHead(n + 1, true)
    ensures UpToHead(n, true) + [SawSocket(true), SawState(true), CheckBegin] + [CheckEnd(false)] == UpToHead(n, false)
    ensures UpToHead(n, true) + [SawSocket(true), SawState(true), CheckBegin] + []
         == UpToHead(n, true) + [SawSocket(true), SawState(true), CheckBegin]
  {
    var start := [ThreadStart, LoopEntered];
    assert start + Turns(n + 1) == start + Turns(n) + Turn(true);
  }

  lemma LeavingTells(et: seq<Observation>, n: nat, more: bool, seen: seq<Observation>, log: seq<Observation>)
    requires et == UpToHead(n, more) + seen && |log| == 1
    ensures IsExit(seen + log, more) ==> Exited(et + log, n, more, [])
    ensures et + log == UpToHead(n, more) + (seen + log)
  {
    var exit := seen + log;
    assert et + log == UpToHead(n, more) + exit + [];
    if IsExit(exit, more) {
      assert Exited(et + log, n, more, []);
    }
  }

  lemma ExitedTells(et: seq<Observation>, n: nat, more: bool, rest: seq<Observation>, o: Observation)
    requires Exited(et, n, more, rest)
    ensures Exited(et + [o], n, more, rest + [o])
  {
    var exit :| IsExit(exit, more) && et == UpToHead(n, more) + exit + rest;
    assert et + [o] == UpToHead(n, more) + exit + (rest + [o]);
  }

  lemma EventKeepsStory(s: Sys, s': Sys)
    requires StoryInv(s) && EventStep(s, s')
    ensures StoryInv(s')
  {
    EventMoves(s, s');
    var log := Logged(s.trace, s'.trace);
    StoryGoesOn(EventTrace(s.trace), s.event, s.processed, s.checks, s.state, s'.event, s'.processed, s'.state, log, s'.checks);
    if log == [] {
      assert s.trace + log == s.trace && EventTrace(s.trace) + [] == EventTrace(s.trace);
    } else {
      ExtendTells(s.trace, log[0]);
      assert log == [log[0]];
    }
  }

  /** Callers observe nothing for the event thread. */
  lemma CallerTellsNothing(s: Sys, s': Sys, t: nat)
    requires t < |s.callers| && CallerStep(s, s', t)
    ensures EventTrace(s'.trace) == EventTrace(s.trace)
    ensures s'.event == s.event && s'.processed == s.processed && s'.checks == s.checks
  {
    CallerMoves(s, s', t);
    if s'.trace != s.trace {
      var o := s'.trace[|s.trace|];
      assert s'.trace == s.trace + [o] && !o.ByEventThread();
      ExtendTells(s.trace, o);
    }
  }

  lemma CallerKeepsStory(s: Sys, s': Sys, t: nat)
    requires StoryInv(s) && t < |s.callers| && CallerStep(s, s', t)
    ensures StoryInv(s')
  {
    CallerTellsNothing(s, s', t);
  }

  lemma ConnectPersists(tr: seq<Observation>, o: Observation)
    requires SuccessfulConnect(tr)
    ensures SuccessfulConnect(tr + [o])
  {
    var t :| SocketConnected(t) in tr && WentRunning(t) in tr;
    assert SocketConnected(t) in tr + [o] && WentRunning(t) in tr + [o];
  }

  /** Logging one observation keeps the claims about earlier checks. */
  lemma ChecksStayCovered(tr: seq<Observation>, o: Observation)
    requires forall i :: 0 <= i < |tr| && tr[i].CheckBegin? ==> SuccessfulConnect(tr[..i])
    requires o.CheckBegin? ==> SuccessfulConnect(tr)
    ensures forall i :: 0 <= i < |tr + [o]| && (tr + [o])[i].CheckBegin? ==> SuccessfulConnect((tr + [o])[..i])
  {
    var tr' := tr + [o];
    forall i | 0 <= i < |tr'| && tr'[i].CheckBegin?
      ensures SuccessfulConnect(tr'[..i])
    {
      if i < |tr| {
        assert tr'[..i] == tr[..i];
      } else {
        assert tr'[..i] == tr;
      }
    }
  }

  /** Logging one observation keeps the fit, if what it claims is covered. */
  lemma ConnectStillFits(pc: EventPc, state: Phase, tr: seq<Observation>, pc': EventPc, state': Phase, o: Observation)
    requires ConnectFits(pc, state, tr)
    requires pc.Dead? ==> pc'.Dead?
    requires state'.Running? ==> state.Running? || (o.WentRunning? && SocketConnected(o.t) in tr)
    requires InLoop(pc') || pc'.Dead? ==> SuccessfulConnect(tr)
    requires o.CheckBegin? ==> SuccessfulConnect(tr)
    requires o.Joined? ==> pc.Dead?
    ensures ConnectFits(pc', state', tr + [o])
  {
    Extend(tr, o);
    ChecksStayCovered(tr, o);
    if SuccessfulConnect(tr) {
      ConnectPersists(tr, o);
    } else if state'.Running? {
      assert SocketConnected(o.t) in tr + [o] && WentRunning(o.t) in tr + [o];
    }
  }

  lemma EventKeepsConnect(s: Sys, s': Sys)
    requires ConnectInv(s) && EventStep(s, s')
    ensures ConnectInv(s')
  {
    EventMoves(s, s');
    if |s'.trace| > |s.trace| {
      var o := s'.trace[|s.trace|];
      assert s'.trace == s.trace + [o];
      ConnectStillFits(s.event, s.state, s.trace, s'.event, s'.state, o);
    }
  }

  lemma CallerKeepsConnect(s: Sys, s': Sys, t: nat)
    requires ConnectInv(s) && t < |s.callers| && CallerStep(s, s', t)
    ensures ConnectInv(s')
  {
    CallerMoves(s, s', t);
    CallerKeepsSockets(s, s', t);
    if |s'.trace| > |s.trace| {
      var o := s'.trace[|s.trace|];
      assert s'.trace == s.trace + [o];
      ConnectStillFits(s.event, s.state, s.trace, s'.event, s'.state, o);
    }
  }

  lemma CallerKeepsSockets(s: Sys, s': Sys, t: nat)
    requires SocketsInv(s) && t < |s.callers| && CallerStep(s, s', t)
    ensures SocketsInv(s')
  {
    CallerMovesItself(s, s', t);
    CallerKeepsSocket(s, s', t);
  }

  /** A caller with a socket had it before or has just logged the connection; nothing is unlogged. */
  lemma CallerKeepsSocket(s: Sys, s': Sys, t: nat)
    requires t < |s.callers| && CallerStep(s, s', t) && |s'.callers| == |s.callers|
    ensures s'.callers[t].HasSocket() && !s.callers[t].HasSocket() ==> s'.trace == s.trace + [SocketConnected(t)]
    ensures s'.trace == s.trace || (|s'.trace| == |s.trace| + 1 && s'.trace[..|s.trace|] == s.trace)
  {
  }

  ghost predicate Inv(s: Sys) {
    MutexInv(s) && TraceInv(s) && StoryInv(s) && ConnectInv(s)
  }

  lemma StepKeepsInv(s: Sys, s': Sys)
    requires Inv(s) && Step(s, s')
    ensures Inv(s')
  {
    if EventStep(s, s') {
      EventKeepsMutex(s, s');
      EventKeepsTrace(s, s');
      EventKeepsStory(s, s');
      EventKeepsConnect(s, s');
    } else {
      var t :| 0 <= t < |s.callers| && CallerStep(s, s', t);
      CallerKeepsMutex(s, s', t);
      CallerKeepsTrace(s, s', t);
      CallerKeepsStory(s, s', t);
      CallerKeepsConnect(s, s', t);
    }
  }

  lemma {:induction false} RunKeepsInv(threads: nat, run: seq<Sys>)
    requires IsRun(threads, run)
    ensures Inv(run[|run| - 1])
  {
    if |run| > 1 {
      var before, i := run[..|run| - 1], |run| - 2;
      forall i {:trigger before[i + 1]} | 0 <= i < |before| - 1
        ensures Step(before[i], before[i + 1])
      {
        assert before[i + 1] == run[i + 1];
      }
      RunKeepsInv(threads, before);
      assert run[i + 1] == run[|run| - 1];
      StepKeepsInv(run[i], run[i + 1]);
    }
  }

  // ---------------------------------------------------------------- results

  /** In every interleaving, no message check begins before some Connect has succeeded. */
  lemma NoCheckBeforeConnect(threads: nat, run: seq<Sys>, i: nat)
    requires IsRun(threads, run) && i < |run[|run| - 1].trace| && run[|run| - 1].trace[i].CheckBegin?
    ensures SuccessfulConnect(run[|run| - 1].trace[..i])
  {
    RunKeepsInv(threads, run);
  }

  /** Once the state is moved off RUNNING while the loop is active it stays off until the thread
      exits, and at most one more message check begins. */
  lemma AtMostOneMoreCheck(threads: nat, run: seq<Sys>)
    requires IsRun(threads, run)
    ensures !BackToRunning(run[|run| - 1].trace)
    ensures ChecksAfterOff(run[|run| - 1].trace) <= 1
    ensures OffInLoop(run[|run| - 1].trace) && InLoop(run[|run| - 1].event) ==> !run[|run| - 1].state.Running?
  {
    RunKeepsInv(threads, run);
  }

  /** The event thread's observations are a prefix of: start, loop, turns whose check returned true, at
      most one whose check returned false or threw, one of the reasons for leaving, one stop, exit. */
  lemma CallbacksInOrder(threads: nat, run: seq<Sys>) returns (more: bool, exit: seq<Observation>)
    requires IsRun(threads, run)
    ensures IsExit(exit, more)
    ensures EventTrace(run[|run| - 1].trace) <= UpToHead(run[|run| - 1].checks, more) + exit + [ThreadStop, ThreadExit]
  {
    RunKeepsInv(threads, run);
    var s := run[|run| - 1];
    more, exit := StoryIsPrefix(EventTrace(s.trace), s.event, s.processed, s.checks);
  }

  lemma StoryIsPrefix(et: seq<Observation>, pc: EventPc, more: bool, n: nat) returns (more': bool, exit: seq<Observation>)
    requires StoryFits(et, pc, more, n)
    ensures IsExit(exit, more') && et <= UpToHead(n, more') + exit + [ThreadStop, ThreadExit]
  {
    more', exit := more, [SawSocket(true), SawState(false)];
    match pc
    case Calling | InCheck | Failing =>
      more' := false;
      assert UpToHead(n, false) == UpToHead(n, true) + [SawSocket(true), SawState(true), CheckBegin] + [CheckEnd(false)];
    case Leaving => exit :| IsExit(exit, more) && et == UpToHead(n, more) + exit + [];
    case Returning => exit :| IsExit(exit, more) && et == UpToHead(n, more) + exit + [ThreadStop];
    case Dead => exit :| IsExit(exit, more) && et == UpToHead(n, more) + exit + [ThreadStop, ThreadExit];
    case _ =>
  }

  /** A Disconnect that has joined the event thread comes after its exit, and so after a
      successful Connect: without one the thread waits forever and the join does not return. */
  lemma JoinNeedsConnect(threads: nat, run: seq<Sys>, t: nat)
    requires IsRun(threads, run) && Joined(t) in run[|run| - 1].trace
    ensures ThreadExit in run[|run| - 1].trace
    ensures SuccessfulConnect(run[|run| - 1].trace)
  {
    RunKeepsInv(threads, run);
  }
}
