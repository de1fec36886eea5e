/**
  Device::cancel() against the commands (src/device.cpp, src/session.cpp), over every interleaving.
  cancel() raises two flags under conn_mutex; a command, of which one runs at a time, consumes one of
  them and then settles both. A reconnect replaces the session, and with it one of the flags.
*/
module CancelProtocol {
  import opened Seqs

  /** Who holds conn_mutex. `Swapping` carries what the swap has read of the old session's flag. */
  datatype Mutex = Free | Cancelling(sessionRaised: bool) | Settling(sessionCleared: bool) | Swapping(pending: bool,
      moved: bool)

  /** The command thread: `Aborted` is between consuming a flag and settling. */
  datatype Command = Idle | Running | Aborted | Settled

  /**
    The flags and threads. The last three fields record what happened: the number of settlements so
    far (the epoch), and the epoch of each cancel() and of each abort by a flag.
  */
  datatype State = State(
    sessionFlag: bool, logFlag: bool, stop: bool, mutex: Mutex, command: Command,
    epoch: nat, cancels: seq<nat>, aborts: seq<nat>)

  const INITIAL := State(false, false, false, Free, Idle, 0, [], [])

  datatype Step =
    | CancelLock | RaiseSession | RaiseLog
    | Begin | PollSession | PollLog | End
    | SwapLoad | SwapMove | SwapStore
    | SettleLock | ClearSession | ClearLog | Finish
    | Stop

  predicate Enabled(s: State, step: Step) {
    match step
    case CancelLock => s.mutex.Free?
    case RaiseSession => s.mutex == Cancelling(false)
    case RaiseLog => s.mutex == Cancelling(true)
    case Begin => s.command.Idle?
    case PollSession => s.command.Running? && !s.mutex.Swapping?
    case PollLog => s.command.Running? && !s.mutex.Swapping?
    case End => s.command.Running? && !s.mutex.Swapping?
    case SwapLoad => s.command.Running? && s.mutex.Free?
    case SwapMove => s.mutex.Swapping? && !s.mutex.moved
    case SwapStore => s.mutex.Swapping? && s.mutex.moved
    case SettleLock => (s.command.Aborted? || s.command.Settled?) && s.mutex.Free?
    case ClearSession => s.mutex == Settling(false)
    case ClearLog => s.mutex == Settling(true)
    case Finish => s.command.Settled? && !s.mutex.Settling?
    case Stop => true
  }

  function Do(s: State, step: Step): (r: State)
    requires Enabled(s, step)
  {
    match step
    case CancelLock => s.(mutex := Cancelling(false), cancels := s.cancels + [s.epoch])
    case RaiseSession => s.(mutex := Cancelling(true), sessionFlag := true)
    case RaiseLog => s.(mutex := Free, logFlag := true)
    case Begin => s.(command := Running)
    case PollSession =>
      if s.sessionFlag then s.(sessionFlag := false, command := Aborted, aborts := s.aborts + [s.epoch])
      else if s.stop then s.(command := Aborted)
      else s
    case PollLog =>
      if s.logFlag then s.(logFlag := false, command := Aborted, aborts := s.aborts + [s.epoch])
      else if s.stop then s.(command := Aborted)
      else s
    case End => s.(command := Idle)
    case SwapLoad => s.(mutex := Swapping(s.sessionFlag, false))
    case SwapMove => s.(mutex := Swapping(s.mutex.pending, true), sessionFlag := false)
    case SwapStore => s.(mutex := Free, sessionFlag := s.mutex.pending)
    case SettleLock => s.(mutex := Settling(false))
    case ClearSession => s.(mutex := Settling(true), sessionFlag := false)
    case ClearLog => s.(mutex := Free, logFlag := false, command := Settled, epoch := s.epoch + 1)
    case Finish => s.(command := Idle)
    case Stop => s.(stop := true)
  }

  /** A step that is not enabled does nothing, so every sequence of steps is an interleaving. */
  function After(steps: seq<Step>): (s: State) {
    if steps == [] then INITIAL
    else
      var s, step := After(steps[..|steps| - 1]), steps[|steps| - 1];
      if Enabled(s, step) then Do(s, step) else s
  }

  /** A cancel() began since the last settlement. */
  predicate Pending(s: State) {
    s.epoch in s.cancels
  }

  /** The flag of the session in use, or the one it is about to get. */
  predicate SessionPending(s: State) {
    if s.mutex.Swapping? then s.mutex.pending else s.sessionFlag
  }

  /** What the flags say outside the hand-over from an abort to its settlement. */
  ghost predicate FlagsAgree(s: State) {
    match s.mutex
    case Cancelling(raised) => (raised ==> s.sessionFlag) && (s.sessionFlag ==> Pending(s))
        && (s.logFlag ==> s.sessionFlag)
    case Settling(_) => true
    case _ => SessionPending(s) == s.logFlag == Pending(s)
  }

  /** A command that holds or has dropped a consumed flag is the only abort of its epoch. */
  ghost predicate Invariant(s: State) {
    && (s.mutex.Swapping? ==> s.command.Running?)
    && (s.mutex.Settling? ==> s.command.Aborted? || s.command.Settled?)
    && (s.mutex == Settling(true) ==> !s.sessionFlag)
    && (s.mutex.Cancelling? ==> Pending(s))
    && (s.sessionFlag || s.logFlag || SessionPending(s) ==> Pending(s))
    && (!s.command.Aborted? ==> FlagsAgree(s) && s.epoch !in s.aborts)
    && (forall i, j :: 0 <= i < j < |s.aborts| ==> s.aborts[i] < s.aborts[j])
    && (forall i :: 0 <= i < |s.aborts| ==> s.aborts[i] <= s.epoch && s.aborts[i] in s.cancels)
    && (forall i :: 0 <= i < |s.cancels| ==> s.cancels[i] <= s.epoch)
  }

  lemma StepKeeps(s: State, step: Step)
    requires Invariant(s) && Enabled(s, step)
    ensures Invariant(Do(s, step))
  {
    var t := Do(s, step);
    if step.CancelLock? {
      assert t.cancels[|s.cancels|] == s.epoch;
    }
  }

  lemma {:induction false} RunKeeps(steps: seq<Step>)
    ensures Invariant(After(steps))
  {
    if steps != [] {
      hide Invariant;
      RunKeeps(steps[..|steps| - 1]);
      var s, step := After(steps[..|steps| - 1]), steps[|steps| - 1];
      if Enabled(s, step) { StepKeeps(s, step); }
    }
  }

  /**
    Every interleaving: whenever conn_mutex is free and no command is between consuming a flag and
    settling, the two flags agree, and they say whether a cancel() began since the last settlement.
    So whichever of the two sockets the running command waits on next, it is aborted exactly if one did.
  */
  lemma FlagsAgreeWhenFree(steps: seq<Step>)
    requires After(steps).mutex.Free? && !After(steps).command.Aborted?
    ensures var s := After(steps);
            && s.sessionFlag == s.logFlag == Pending(s)
            && (s.command.Running? ==>
                  && (Do(s, PollSession).aborts == s.aborts + [s.epoch] <==> Pending(s))
                  && (Do(s, PollLog).aborts == s.aborts + [s.epoch] <==> Pending(s)))
  {
    RunKeeps(steps);
    hide After;
    var s := After(steps);
    assert |s.aborts + [s.epoch]| != |s.aborts|;
  }

  lemma {:induction false} NoMoreThan(a: seq<nat>, c: seq<nat>)
    requires forall i, j :: 0 <= i < j < |a| ==> a[i] < a[j]
    requires forall i :: 0 <= i < |a| ==> a[i] in c
    ensures |a| <= |c|
  {
    if a != [] {
      var n := |a| - 1;
      var k :| 0 <= k < |c| && c[k] == a[n];
      var rest := c[..k] + c[k + 1..];
      forall i | 0 <= i < n ensures a[..n][i] in rest {
        var x :| 0 <= x < |c| && c[x] == a[i];
        assert rest[if x < k then x else x - 1] == a[i];
      }
      NoMoreThan(a[..n], rest);
    }
  }

  /**
    Every interleaving: each abort has a cancel() of its own, begun after the command aborted before
    it was settled; so one cancel() aborts at most one command, and there are no more aborts than
    cancels.
  */
  lemma OneCancelOneAbort(steps: seq<Step>)
    ensures var s := After(steps);
            && |s.aborts| <= |s.cancels|
            && (forall i :: 0 <= i < |s.aborts| ==> s.aborts[i] in s.cancels)
            && (forall i, j :: 0 <= i < j < |s.aborts| ==> s.aborts[i] < s.aborts[j])
  {
    RunKeeps(steps);
    hide After;
    var s := After(steps);
    NoMoreThan(s.aborts, s.cancels);
  }

  lemma AfterOneMore(steps: seq<Step>, step: Step)
    ensures After(steps + [step]) == if Enabled(After(steps), step) then Do(After(steps), step) else After(steps)
  {
    hide Enabled, Do;
    Without(steps, step);
  }

  /**
    Without the settlement the claim fails: a command that consumes the session's flag leaves the log
    flag of the same cancel() up, and the next poll of the log socket would abort on it.
  */
  lemma UnsettledFlagStays() returns (steps: seq<Step>)
    ensures var s := After(steps);
            s.command.Aborted? && |s.aborts| == |s.cancels| == 1 && !s.sessionFlag && s.logFlag
  {
    hide After;
    var s := INITIAL;
    steps := [];
    assert After(steps) == s by { NoSteps(); }
    steps := Extended(steps, CancelLock);
    steps := Extended(steps, RaiseSession);
    steps := Extended(steps, RaiseLog);
    assert After(steps) == s.(sessionFlag := true, logFlag := true, cancels := [0]);
    steps := Extended(steps, Begin);
    steps := Extended(steps, PollSession);
  }

  lemma NoSteps()
    ensures After([]) == INITIAL
  {
  }

  lemma Extended(steps: seq<Step>, step: Step) returns (longer: seq<Step>)
    ensures After(longer) == if Enabled(After(steps), step) then Do(After(steps), step) else After(steps)
  {
    AfterOneMore(steps, step);
    longer := steps + [step];
  }

  // ---------------------------------------------------------------------------
  // What the threads achieve
  // ---------------------------------------------------------------------------

  /** Every interleaving, while conn_mutex is free: a poll aborts the command exactly on a cancel() or a stop. */
  lemma PollsExactly(steps: seq<Step>)
    requires After(steps).mutex.Free? && After(steps).command.Running?
    ensures var s := After(steps);
            if Pending(s) || s.stop then Do(s, PollSession).command.Aborted? && Do(s, PollLog).command.Aborted?
            else Do(s, PollSession) == s && Do(s, PollLog) == s
  {
    RunKeeps(steps);
  }

  /** A cancel() that gets conn_mutex leaves both flags up. */
  lemma CancelRaisesBoth(steps: seq<Step>) returns (more: seq<Step>)
    requires After(steps).mutex.Free?
    ensures var s := After(steps);
            After(more) == s.(sessionFlag := true, logFlag := true, cancels := s.cancels + [s.epoch])
  {
    hide After;
    more := Extended(steps, CancelLock);
    more := Extended(more, RaiseSession);
    more := Extended(more, RaiseLog);
  }

  /** In the middle of a command the session can be replaced by one whose flag is down, and ends with its flag. */
  lemma SwapKeepsTheFlags(steps: seq<Step>) returns (moved: seq<Step>, more: seq<Step>)
    requires After(steps).mutex.Free? && After(steps).command.Running?
    ensures var s := After(steps);
            && After(moved) == s.(mutex := Swapping(s.sessionFlag, true), sessionFlag := false)
            && SessionPending(After(moved)) == s.sessionFlag
            && After(more) == s
  {
    hide After;
    moved := Extended(steps, SwapLoad);
    moved := Extended(moved, SwapMove);
    more := Extended(moved, SwapStore);
  }

  /** An aborted command that gets conn_mutex settles: no cancel() is pending, and the next command may begin. */
  lemma SettlementClears(steps: seq<Step>) returns (more: seq<Step>)
    requires After(steps).mutex.Free? && After(steps).command.Aborted?
    ensures var s := After(steps);
            && After(more) == s.(sessionFlag := false, logFlag := false, command := Idle, epoch := s.epoch + 1)
            && !Pending(After(more)) && Enabled(After(more), Begin)
  {
    RunKeeps(steps);
    hide After;
    more := Extended(steps, SettleLock);
    more := Extended(more, ClearSession);
    more := Extended(more, ClearLog);
    more := Extended(more, Finish);
  }

  /** A command that ends by itself leaves the flags and a pending cancel() for the next one. */
  lemma EndLeavesTheRest(steps: seq<Step>) returns (more: seq<Step>)
    requires After(steps).command.Running? && !After(steps).mutex.Swapping?
    ensures After(more) == After(steps).(command := Idle) && Enabled(After(more), Begin)
  {
    hide After;
    more := Extended(steps, End);
  }
}
