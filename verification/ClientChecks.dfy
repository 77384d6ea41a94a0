/** When the event thread checks for messages, and what a failure does. */
module ClientChecks {
  import opened ClientDriver
  import opened ClientJoin

  // ---------------------------------------------------------------- a check that returned false is the last

  /** No check begins after one that returned false or threw, and the thread is past it. */
  ghost predicate RefusalInv(s: Sys) {
    && (CheckEnd(false) in s.trace ==> Refused(s))
    && (forall i, j :: 0 <= i < j < |s.trace| && s.trace[i] == CheckEnd(false) ==> !s.trace[j].CheckBegin?)
  }

  lemma LogKeepsRefusal(s: Sys, s': Sys, log: seq<Observation>)
    requires RefusalInv(s) && s'.trace == s.trace + log && |log| <= 1
    requires Refused(s) ==> Refused(s') && log != [CheckBegin]
    requires log == [CheckEnd(false)] ==> Refused(s')
    ensures RefusalInv(s')
  {
  }

  lemma EventKeepsRefusal(s: Sys, s': Sys)
    requires RefusalInv(s) && EventStep(s, s')
    ensures RefusalInv(s')
  {
    EventMoves(s, s');
    LogKeepsRefusal(s, s', Logged(s.trace, s'.trace));
  }

  lemma CallerKeepsRefusal(s: Sys, s': Sys, t: nat)
    requires RefusalInv(s) && t < |s.callers| && CallerStep(s, s', t)
    ensures RefusalInv(s')
  {
    CallerMoves(s, s', t);
    var log := Logged(s.trace, s'.trace);
    assert s'.trace == s.trace + log;
    LogKeepsRefusal(s, s', log);
  }

  // ---------------------------------------------------------------- failures move the state off RUNNING

  predicate IsFailure(o: Observation) {
    o.EventError? || o.SendError? || o.DisconnectBegan?
  }

  /** The thread that failed, or began to disconnect, has yet to write the state. */
  predicate Pending(s: Sys, o: Observation) {
    match o
    case EventError => s.event.Failing?
    case SendError(t) => t < |s.callers| && s.callers[t].SendFailed?
    case DisconnectBegan(t) => t < |s.callers| && s.callers[t].Disconnecting?
    case _ => false
  }

  ghost predicate OffAfter(tr: seq<Observation>, i: nat) {
    exists j :: i < j < |tr| && tr[j].WentOff?
  }

  ghost predicate FailureInv(s: Sys) {
    forall i :: 0 <= i < |s.trace| && IsFailure(s.trace[i]) ==> OffAfter(s.trace, i) || Pending(s, s.trace[i])
  }

  lemma LogKeepsFailures(s: Sys, s': Sys, log: seq<Observation>)
    requires FailureInv(s) && s'.trace == s.trace + log && |log| <= 1
    requires (log != [] && log[0].WentOff?) || forall o :: Pending(s, o) ==> Pending(s', o)
    requires log != [] && IsFailure(log[0]) ==> Pending(s', log[0])
    ensures FailureInv(s')
  {
    var tr, tr' := s.trace, s'.trace;
    forall i | 0 <= i < |tr'| && IsFailure(tr'[i])
      ensures OffAfter(tr', i) || Pending(s', tr'[i])
    {
      if i < |tr| {
        assert tr'[i] == tr[i];
        if log != [] && log[0].WentOff? {
          assert tr'[|tr|].WentOff?;
        } else if OffAfter(tr, i) {
          var j :| i < j < |tr| && tr[j].WentOff?;
          assert tr'[j].WentOff?;
        }
      }
    }
  }

  lemma EventKeepsFailures(s: Sys, s': Sys)
    requires FailureInv(s) && EventStep(s, s')
    ensures FailureInv(s')
  {
    EventMoves(s, s');
    var log := Logged(s.trace, s'.trace);
    if log == [] || !log[0].WentOff? {
      forall o | Pending(s, o) ensures Pending(s', o) {
      }
    }
    LogKeepsFailures(s, s', log);
  }

  /** A caller that has yet to write the state writes it with its next step. */
  lemma CallerWrites(s: Sys, s': Sys, t: nat)
    requires t < |s.callers| && CallerStep(s, s', t)
    ensures s.callers[t].SendFailed? || s.callers[t].Disconnecting? ==> s'.trace == s.trace + [WentOff(Stopping)] && s'.state == Stopping
  {
  }

  lemma CallerKeepsFailures(s: Sys, s': Sys, t: nat)
    requires FailureInv(s) && t < |s.callers| && CallerStep(s, s', t)
    ensures FailureInv(s')
  {
    CallerMoves(s, s', t);
    CallerMovesItself(s, s', t);
    CallerWrites(s, s', t);
    var log := Logged(s.trace, s'.trace);
    assert s'.trace == s.trace + log;
    if log == [] || !log[0].WentOff? {
      forall o | Pending(s, o) ensures Pending(s', o) {
      }
    }
    LogKeepsFailures(s, s', log);
  }

  // ---------------------------------------------------------------- the shared fields tell the last event

  /** The socket is ok after a connection and not after an error, whoever had it. */
  function SocketAfter(tr: seq<Observation>): bool {
    if tr == [] then false else
      match tr[|tr| - 1]
      case SocketConnected(_) => true
      case ConnectError(_) => false
      case SendError(_) => false
      case EventError => false
      case _ => SocketAfter(tr[..|tr| - 1])
  }

  /** The state is what was written last. */
  function StateAfter(tr: seq<Observation>): Phase {
    if tr == [] then Starting else
      match tr[|tr| - 1]
      case WentRunning(_) => Running
      case WentOff(phase) => phase
      case _ => StateAfter(tr[..|tr| - 1])
  }

  ghost predicate FieldsInv(s: Sys) {
    s.socketOk == SocketAfter(s.trace) && s.state == StateAfter(s.trace)
  }

  lemma FieldsSnoc(tr: seq<Observation>, o: Observation)
    ensures SocketAfter(tr + [o]) == if o.SocketConnected? then true
                                     else if o.ConnectError? || o.SendError? || o.EventError? then false else SocketAfter(tr)
    ensures StateAfter(tr + [o]) == if o.WentRunning? then Running else if o.WentOff? then o.phase else StateAfter(tr)
  {
    assert (tr + [o])[..|tr|] == tr;
  }

  /** What a step does to the fields is what it logs. */
  ghost predicate LogsFields(s: Sys, s': Sys, log: seq<Observation>) {
    && s'.trace == s.trace + log && |log| <= 1
    && if log == [] then s'.socketOk == s.socketOk && s'.state == s.state else
         var o := log[0];
         && s'.socketOk == (if o.SocketConnected? then true
                            else if o.ConnectError? || o.SendError? || o.EventError? then false else s.socketOk)
         && s'.state == if o.WentRunning? then Running else if o.WentOff? then o.phase else s.state
  }

  lemma LogKeepsFields(s: Sys, s': Sys, log: seq<Observation>)
    requires FieldsInv(s) && LogsFields(s, s', log)
    ensures FieldsInv(s')
  {
    if log == [] {
      assert s.trace + log == s.trace;
    } else {
      assert log == [log[0]];
      FieldsSnoc(s.trace, log[0]);
    }
  }

  lemma EventLogsFields(s: Sys, s': Sys)
    requires EventStep(s, s')
    ensures LogsFields(s, s', Logged(s.trace, s'.trace))
  {
  }

  lemma CallerLogsFields(s: Sys, s': Sys, t: nat)
    requires t < |s.callers| && CallerStep(s, s', t)
    ensures LogsFields(s, s', Logged(s.trace, s'.trace))
  {
  }

  // ---------------------------------------------------------------- every run

  lemma {:induction false} RunKeepsChecks(threads: nat, run: seq<Sys>, m: nat)
    requires IsRun(threads, run) && m < |run|
    ensures RefusalInv(run[m]) && FailureInv(run[m]) && FieldsInv(run[m])
  {
    if m > 0 {
      RunKeepsChecks(threads, run, m - 1);
      RunStep(threads, run, m);
      StepKeepsChecks(run[m - 1], run[m]);
    }
  }

  lemma StepKeepsChecks(s: Sys, s': Sys)
    requires RefusalInv(s) && FailureInv(s) && FieldsInv(s) && Step(s, s')
    ensures RefusalInv(s') && FailureInv(s') && FieldsInv(s')
  {
    if EventStep(s, s') {
      EventKeepsRefusal(s, s');
      EventKeepsFailures(s, s');
      EventLogsFields(s, s');
    } else {
      var t :| 0 <= t < |s.callers| && CallerStep(s, s', t);
      CallerKeepsRefusal(s, s', t);
      CallerKeepsFailures(s, s', t);
      CallerLogsFields(s, s', t);
    }
    LogKeepsFields(s, s', Logged(s.trace, s'.trace));
  }

  // ---------------------------------------------------------------- results

  /** In every interleaving, a check that returned false or threw is the last: none begins after it, and
      in every continuation the event thread makes at most five more moves, whatever the state is. */
  lemma RefusedCheckIsLast(threads: nat, run: seq<Sys>, k: nat, i: nat, m: nat)
    requires IsRun(threads, run) && k <= m < |run| && i < |run[k].trace| && run[k].trace[i] == CheckEnd(false)
    ensures forall j :: i < j < |run[k].trace| ==> !run[k].trace[j].CheckBegin?
    ensures Moves(run, k, m) <= Distance(run[k].event) <= 5
    ensures Moves(run, k, m) == Distance(run[k].event) ==> run[m].event.Dead?
    ensures run[m].event.Dead? || EventCanStep(run[m])
  {
    RunKeepsChecks(threads, run, k);
    EndingExits(threads, run, k, m);
  }

  /** A check begins only when the loop has just read the socket as ok and the state as RUNNING, since
      the last check ended: the two reads are the thread's observations before it. */
  lemma {:induction false} CheckFollowsReads(n: nat, j: nat, et: seq<Observation>, rest: seq<Observation>)
    requires et == [ThreadStart, LoopEntered] + Turns(n) + rest && j < 2 + |Turns(n)| && et[j].CheckBegin?
    ensures j >= 2 && et[j - 2] == SawSocket(true) && et[j - 1] == SawState(true)
  {
    if n > 0 {
      var et', rest' := [ThreadStart, LoopEntered] + Turns(n - 1) + (Turn(true) + rest), Turn(true) + rest;
      assert et == et';
      var at := 2 + |Turns(n - 1)|;
      if j < at {
        CheckFollowsReads(n - 1, j, et, rest');
      } else {
        assert et[at] == SawSocket(true) && et[at + 1] == SawState(true) && et[at + 2] == CheckBegin && et[at + 3] == CheckEnd(true);
      }
    }
  }

  /** In every interleaving, each check is preceded, since the last check, by a read of the socket as ok
      and of the state as RUNNING. */
  lemma CheckNeedsSocket(threads: nat, run: seq<Sys>, j: nat)
    requires IsRun(threads, run) && j < |EventTrace(run[|run| - 1].trace)| && EventTrace(run[|run| - 1].trace)[j].CheckBegin?
    ensures var et := EventTrace(run[|run| - 1].trace); j >= 2 && et[j - 2] == SawSocket(true) && et[j - 1] == SawState(true)
  {
    var et := EventTrace(run[|run| - 1].trace);
    var n := run[|run| - 1].checks;
    var more, exit := CallbacksInOrder(threads, run);
    var tail := (if more then [] else Turn(false)) + exit + [ThreadStop, ThreadExit];
    var whole := [ThreadStart, LoopEntered] + Turns(n) + tail;
    assert UpToHead(n, more) + exit + [ThreadStop, ThreadExit] == whole;
    assert et == whole[..|et|];
    assert et[j] == whole[j];
    if j < 2 + |Turns(n)| {
      CheckFollowsReads(n, j, whole, tail);
    } else {
      TailFollowsReads(more, exit, tail, j - 2 - |Turns(n)|);
      var at := 2 + |Turns(n)|;
      assert whole[j - 2] == tail[j - 2 - at] && whole[j - 1] == tail[j - 1 - at];
    }
  }

  lemma TailFollowsReads(more: bool, exit: seq<Observation>, tail: seq<Observation>, i: nat)
    requires IsExit(exit, more) && tail == (if more then [] else Turn(false)) + exit + [ThreadStop, ThreadExit]
    requires i < |tail| && tail[i].CheckBegin?
    ensures i >= 2 && tail[i - 2] == SawSocket(true) && tail[i - 1] == SawState(true)
  {
  }

  /** In every interleaving, after every failed send or receive, and after every begun Disconnect, the
      state is moved off RUNNING, unless the thread concerned has yet to take its next step. */
  lemma FailureMovesOff(threads: nat, run: seq<Sys>, k: nat, i: nat)
    requires IsRun(threads, run) && k < |run| && i < |run[k].trace| && IsFailure(run[k].trace[i])
    ensures OffAfter(run[k].trace, i) || Pending(run[k], run[k].trace[i])
  {
    RunKeepsChecks(threads, run, k);
  }

  /** In every interleaving the shared fields tell what happened last: the socket is ok exactly when it
      was connected after the last error, and the state is the one written last. */
  lemma FieldsTellLastEvent(threads: nat, run: seq<Sys>, k: nat)
    requires IsRun(threads, run) && k < |run|
    ensures run[k].socketOk == SocketAfter(run[k].trace) && run[k].state == StateAfter(run[k].trace)
  {
    RunKeepsChecks(threads, run, k);
  }
}
