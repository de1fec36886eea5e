/**
  Connection accounting (src/device.cpp): any number of threads declare a disconnect, of which the one
  that clears the flag counts and queues it; recovery attempts, one at a time, count and queue a
  reconnect and then set the flag. The model takes every interleaving of these steps.
*/
module ConnectionProtocol {
  import opened Seqs

  datatype Event = Disconnected | Reconnected

  datatype Attempt = None | Trying | Counted | Queued

  /**
    `counting` threads have cleared the flag but not yet counted the disconnect, `queueing` ones have
    counted but not yet queued it. The receive thread moves events from `pending` to `delivered`.
    `overtook` records that a reconnect was queued while a disconnect was still on its way.
  */
  datatype State = State(
    connected: bool, disconnects: nat, reconnects: nat, counting: nat, queueing: nat, attempt: Attempt,
    pending: seq<Event>, delivered: seq<Event>, overtook: bool)

  const INITIAL := State(true, 0, 0, 0, 0, None, [], [], false)

  datatype Step = Declare | CountDisconnect | QueueDisconnect | Try | Fail | CountReconnect | QueueReconnect
      | Connect | Drain

  function Stepped(s: State, step: Step): (r: State) {
    match step
    case Declare => if s.connected then s.(connected := false, counting := s.counting + 1) else s
    case CountDisconnect =>
      if s.counting == 0 then s
      else s.(counting := s.counting - 1, disconnects := s.disconnects + 1, queueing := s.queueing + 1)
    case QueueDisconnect =>
      if s.queueing == 0 then s else s.(queueing := s.queueing - 1, pending := s.pending + [Disconnected])
    case Try => if s.attempt.None? && !s.connected then s.(attempt := Trying) else s
    case Fail => if s.attempt.Trying? then s.(attempt := None) else s
    case CountReconnect => if s.attempt.Trying? then s.(attempt := Counted, reconnects := s.reconnects + 1) else s
    case QueueReconnect =>
      if s.attempt.Counted? then
        s.(attempt := Queued, pending := s.pending + [Reconnected],
           overtook := s.overtook || s.counting + s.queueing > 0)
      else s
    case Connect => if s.attempt.Queued? then s.(attempt := None, connected := true) else s
    case Drain => s.(pending := [], delivered := s.delivered + s.pending)
  }

  function After(steps: seq<Step>): (s: State) {
    if steps == [] then INITIAL else Stepped(After(steps[..|steps| - 1]), steps[|steps| - 1])
  }

  function Count(events: seq<Event>, e: Event): (n: nat) {
    if events == [] then 0
    else Count(events[..|events| - 1], e) + (if events[|events| - 1] == e then 1 else 0)
  }

  /** All events queued so far. */
  function Log(s: State): (events: seq<Event>) {
    s.delivered + s.pending
  }

  function Down(s: State): (n: nat) {
    if s.connected then 0 else 1
  }

  ghost predicate Balanced(s: State) {
    && s.disconnects + s.counting + (if s.attempt.Counted? || s.attempt.Queued? then 1 else 0) == s.reconnects + Down(s)
    && Count(Log(s), Disconnected) + s.queueing == s.disconnects
    && Count(Log(s), Reconnected) + (if s.attempt.Counted? then 1 else 0) == s.reconnects
    && (!s.attempt.None? ==> !s.connected)
  }

  /** A disconnect first, then the two kinds in turn. */
  predicate Alternates(events: seq<Event>) {
    forall i :: 0 <= i < |events| ==> events[i] == if i % 2 == 0 then Disconnected else Reconnected
  }

  ghost predicate Ordered(s: State) {
    if s.overtook then !Alternates(Log(s))
    else
      && Alternates(Log(s))
      && s.counting + s.queueing <= 1
      && (s.connected || s.attempt.Queued? ==> s.counting + s.queueing == 0)
  }

  lemma CountOneMore(events: seq<Event>, x: Event, e: Event)
    ensures Count(events + [x], e) == Count(events, e) + (if x == e then 1 else 0)
  {
    Without(events, x);
  }

  /** The log grows by what a step queues. */
  lemma LogGrows(s: State, step: Step)
    ensures var t := Stepped(s, step);
            Log(t) == if step.QueueDisconnect? && s.queueing > 0 then Log(s) + [Disconnected]
                      else if step.QueueReconnect? && s.attempt.Counted? then Log(s) + [Reconnected]
                      else Log(s)
  {
    Assoc(s.delivered, s.pending, [Disconnected]);
    Assoc(s.delivered, s.pending, [Reconnected]);
    assert s.delivered + s.pending + [] == s.delivered + s.pending;
  }

  lemma StepBalances(s: State, step: Step)
    requires Balanced(s)
    ensures Balanced(Stepped(s, step))
  {
    hide Log, Count;
    LogGrows(s, step);
    CountOneMore(Log(s), Disconnected, Disconnected);
    CountOneMore(Log(s), Disconnected, Reconnected);
    CountOneMore(Log(s), Reconnected, Disconnected);
    CountOneMore(Log(s), Reconnected, Reconnected);
  }

  /** An alternating log has as many disconnects as reconnects, or one more. */
  lemma {:induction false} AlternatingCounts(events: seq<Event>)
    requires Alternates(events)
    ensures Count(events, Disconnected) == (|events| + 1) / 2 && Count(events, Reconnected) == |events| / 2
  {
    if events != [] { AlternatingCounts(events[..|events| - 1]); }
  }

  lemma AlternatesOneMore(events: seq<Event>, x: Event)
    ensures Alternates(events + [x])
            <==> Alternates(events) && x == if |events| % 2 == 0 then Disconnected else Reconnected
  {
    if Alternates(events + [x]) {
      assert (events + [x])[|events|] == x;
      forall i | 0 <= i < |events| ensures events[i] == if i % 2 == 0 then Disconnected else Reconnected {
        assert (events + [x])[i] == events[i];
      }
    }
  }

  lemma StepOrders(s: State, step: Step)
    requires Balanced(s) && Ordered(s)
    ensures Ordered(Stepped(s, step))
  {
    hide Log, Count, Alternates;
    LogGrows(s, step);
    AlternatesOneMore(Log(s), Disconnected);
    AlternatesOneMore(Log(s), Reconnected);
    if !s.overtook { AlternatingCounts(Log(s)); }
  }

  lemma InitiallyKept()
    ensures Balanced(INITIAL) && Ordered(INITIAL)
  {
    var none: seq<Event> := [];
    assert none + none == none;
    assert Count(none, Disconnected) == Count(none, Reconnected) == 0;
  }

  lemma {:induction false} RunKeeps(steps: seq<Step>)
    ensures Balanced(After(steps)) && Ordered(After(steps))
  {
    hide Balanced, Ordered, Stepped;
    if steps == [] {
      InitiallyKept();
    } else {
      RunKeeps(steps[..|steps| - 1]);
      StepBalances(After(steps[..|steps| - 1]), steps[|steps| - 1]);
      StepOrders(After(steps[..|steps| - 1]), steps[|steps| - 1]);
    }
  }

  /** No declaration and no attempt is under way. */
  predicate Quiescent(s: State) {
    s.counting == s.queueing == 0 && s.attempt.None?
  }

  /**
    Every interleaving, whenever no declaration and no attempt is under way: there is one disconnect
    more than reconnects if the device is down and as many if it is not, and exactly as many events of
    each kind were queued.
  */
  lemma QuiescentCounts(steps: seq<Step>)
    requires Quiescent(After(steps))
    ensures var s := After(steps);
            && s.disconnects == s.reconnects + Down(s)
            && Count(Log(s), Disconnected) == s.disconnects
            && Count(Log(s), Reconnected) == s.reconnects
  {
    RunKeeps(steps);
  }

  /**
    Every interleaving: the events alternate exactly if no attempt queued its reconnect while a thread
    that had cleared the flag had yet to queue the disconnect.
  */
  lemma EventsAlternateExactly(steps: seq<Step>)
    ensures Alternates(Log(After(steps))) <==> !After(steps).overtook
  {
    RunKeeps(steps);
  }

  /** Such an interleaving: the reconnect is queued before the disconnect it ends. */
  lemma ReconnectMayComeFirst()
    ensures Log(After([Declare, Try, CountReconnect, QueueReconnect, CountDisconnect, QueueDisconnect]))
            == [Reconnected, Disconnected]
  {
    var run := [Declare, Try, CountReconnect, QueueReconnect, CountDisconnect, QueueDisconnect];
    assert run[..5] == [Declare, Try, CountReconnect, QueueReconnect, CountDisconnect];
    assert run[..5][..4] == [Declare, Try, CountReconnect, QueueReconnect];
    assert run[..5][..4][..3] == [Declare, Try, CountReconnect];
    assert run[..5][..4][..3][..2] == [Declare, Try];
    assert run[..5][..4][..3][..2][..1] == [Declare];
    assert After([Declare]) == INITIAL.(connected := false, counting := 1);
    var s := INITIAL.(connected := false, counting := 1, attempt := Trying);
    assert After([Declare, Try]) == s;
    s := s.(attempt := Queued, reconnects := 1, pending := [Reconnected], overtook := true);
    assert After([Declare, Try, CountReconnect, QueueReconnect]) == s;
    s := s.(counting := 0, disconnects := 1, queueing := 1);
    assert After([Declare, Try, CountReconnect, QueueReconnect, CountDisconnect]) == s;
  }

  // ---------------------------------------------------------------------------
  // What can still happen
  // ---------------------------------------------------------------------------

  lemma Extended(steps: seq<Step>, step: Step) returns (longer: seq<Step>)
    ensures longer == steps + [step] && After(longer) == Stepped(After(steps), step)
  {
    hide Stepped;
    Without(steps, step);
    longer := steps + [step];
  }

  /** Threads that declare a disconnect finish by themselves. */
  lemma {:induction false} DeclarationsFinish(steps: seq<Step>) returns (more: seq<Step>)
    ensures steps <= more
    ensures var s, t := After(steps), After(more);
            t.counting == t.queueing == 0 && t.connected == s.connected && t.attempt == s.attempt
    decreases After(steps).counting, After(steps).queueing
  {
    hide After;
    var s := After(steps);
    more := steps;
    if s.counting > 0 || s.queueing > 0 {
      var next := Extended(steps, if s.counting > 0 then CountDisconnect else QueueDisconnect);
      more := DeclarationsFinish(next);
    }
  }

  /** A failed attempt leaves everything as it was. */
  lemma FailedAttemptChangesNothing(steps: seq<Step>) returns (more: seq<Step>)
    requires After(steps).attempt.None?
    ensures steps < more && After(more) == After(steps)
  {
    hide After;
    more := Extended(steps, Try);
    if !After(steps).connected {
      more := Extended(more, Fail);
    }
  }

  /** Without a declaration under way an attempt can bring the device up. */
  lemma AttemptCanSucceed(steps: seq<Step>) returns (more: seq<Step>)
    requires !After(steps).connected && After(steps).counting == After(steps).queueing == 0
    ensures steps <= more && After(more).connected && Quiescent(After(more))
  {
    hide After;
    more := steps;
    if After(more).attempt.None? { more := Extended(more, Try); }
    if After(more).attempt.Trying? { more := Extended(more, CountReconnect); }
    if After(more).attempt.Counted? { more := Extended(more, QueueReconnect); }
    more := Extended(more, Connect);
  }

  /**
    From every reachable state the device can be up again with nothing under way, and all events delivered
    that were ever queued.
  */
  lemma CanAlwaysRecover(steps: seq<Step>) returns (more: seq<Step>)
    ensures steps <= more
    ensures var t := After(more);
            t.connected && Quiescent(t) && t.pending == [] && t.delivered == Log(t)
  {
    hide After;
    more := DeclarationsFinish(steps);
    if After(more).connected { IdleWhenUp(more); } else { more := AttemptCanSucceed(more); }
    more := Extended(more, Drain);
    assert After(more).delivered + [] == After(more).delivered;
  }

  lemma IdleWhenUp(steps: seq<Step>)
    ensures After(steps).connected ==> After(steps).attempt.None?
  {
    RunKeeps(steps);
  }
}
