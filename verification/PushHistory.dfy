/** What any sequence of status pushes leaves in the merged status and in the events. */
module PushHistory {
  import opened Bytes
  import opened KeyValueList
  import opened Keys
  import opened PushMerge
  import opened Seqs
  import opened Wrappers

  /** The latest decodable value of a key that any push carried. */
  function Latest<T>(pushes: seq<seq<Byte>>, key: U16, decode: seq<Byte> -> Option<T>): (r: Option<T>) {
    if pushes == [] then None
    else
      var n := |pushes| - 1;
      var before, kvs := Latest(pushes[..n], key, decode), ValuesOf(pushes[n]);
      if kvs.Some? && Field(kvs.value, key, decode).Some? then Field(kvs.value, key, decode) else before
  }

  function LatestStatus(pushes: seq<seq<Byte>>): (s: Status) {
    Status(
      Latest(pushes, CUR_WORK_STATE, WorkState), Latest(pushes, CORE_TEMP, CoreTemp),
      Latest(pushes, POWERUP_CNT, PowerupCnt), Latest(pushes, LOCAL_TIME_NOW, Time),
      Latest(pushes, LAST_SYNC_TIME, Time), Latest(pushes, TIME_OFFSET, TimeOffset),
      Latest(pushes, TIME_SYNC_TYPE, TimeSyncType), Latest(pushes, LIDAR_DIAG_STATUS, DiagStatus),
      Latest(pushes, FW_TYPE, FwType), Latest(pushes, HMS_CODE, HmsCodes))
  }

  /** The merged status; empty before the first push. */
  function Known(s: State): (r: Status) {
    if s.status.Some? then s.status.value else EMPTY
  }

  lemma LatestStep<T>(pushes: seq<seq<Byte>>, d: seq<Byte>, key: U16, decode: seq<Byte> -> Option<T>)
    ensures Latest(pushes + [d], key, decode)
            == if ValuesOf(d).Some? then Keep(Field(ValuesOf(d).value, key, decode), Latest(pushes, key, decode))
               else Latest(pushes, key, decode)
  {
    hide ValuesOf, Field;
    Without(pushes, d);
  }

  lemma LatestStatusStep(pushes: seq<seq<Byte>>, d: seq<Byte>)
    ensures LatestStatus(pushes + [d])
            == if ValuesOf(d).Some? then CarriedOver(DecodeStatus(ValuesOf(d).value), LatestStatus(pushes))
               else LatestStatus(pushes)
  {
    hide ValuesOf, Field, Latest, Keep;
    LatestStep(pushes, d, CUR_WORK_STATE, WorkState);
    LatestStep(pushes, d, CORE_TEMP, CoreTemp);
    LatestStep(pushes, d, POWERUP_CNT, PowerupCnt);
    LatestStep(pushes, d, LOCAL_TIME_NOW, Time);
    LatestStep(pushes, d, LAST_SYNC_TIME, Time);
    LatestStep(pushes, d, TIME_OFFSET, TimeOffset);
    LatestStep(pushes, d, TIME_SYNC_TYPE, TimeSyncType);
    LatestStep(pushes, d, LIDAR_DIAG_STATUS, DiagStatus);
    LatestStep(pushes, d, FW_TYPE, FwType);
    LatestStep(pushes, d, HMS_CODE, HmsCodes);
  }

  lemma NothingToCarry(s: Status)
    ensures CarriedOver(s, EMPTY) == s
  {
  }

  lemma MergedIsCarriedOver(s: State, kvs: seq<KeyValue>)
    ensures Merged(s, kvs) == CarriedOver(DecodeStatus(kvs), Known(s))
  {
    hide CarriedOver, DecodeStatus;
    NothingToCarry(DecodeStatus(kvs));
  }

  /** Any pushes, good or bad: each field of the status is the latest decodable value ever pushed. */
  lemma {:induction false} StatusIsTheLatest(pushes: seq<seq<Byte>>)
    ensures Known(After(pushes)) == LatestStatus(pushes)
  {
    hide CarriedOver, DecodeStatus, LatestStatus, Merged, StateEvent, HmsEvent, DiagEvent, Sorted, ValuesOf;
    if pushes == [] {
      NothingPushed();
    } else {
      var n := |pushes| - 1;
      StatusIsTheLatest(pushes[..n]);
      LatestStatusStep(pushes[..n], pushes[n]);
      assert pushes[..n] + [pushes[n]] == pushes;
      var s, kvs := After(pushes[..n]), ValuesOf(pushes[n]);
      if kvs.Some? { MergedIsCarriedOver(s, kvs.value); }
    }
  }

  lemma NothingPushed()
    ensures LatestStatus([]) == EMPTY
  {
  }

  // ---------------------------------------------------------------------------
  // Events
  // ---------------------------------------------------------------------------

  /** Where the state events lead from `first`; None if one of them is no change from where it starts. */
  function StateWalk(events: seq<Event>, first: Byte): (r: Option<Byte>) {
    if events == [] then Some(first)
    else
      var n := |events| - 1;
      var at := StateWalk(events[..n], first);
      match events[n]
      case StateChanged(x, y) => if at == Some(x) && x != y then Some(y) else None
      case _ => at
  }

  function DiagWalk(events: seq<Event>): (r: Option<Diag>) {
    if events == [] then Some(NORMAL)
    else
      var n := |events| - 1;
      var at := DiagWalk(events[..n]);
      match events[n]
      case DiagChanged(x, y) => if at == Some(x) && x != y then Some(y) else None
      case _ => at
  }

  /** The codes that the HMS events carry, in order. */
  function HmsLog(events: seq<Event>): (log: seq<seq<nat>>) {
    if events == [] then [] else HmsLog(events[..|events| - 1]) + CodesOf(events[|events| - 1])
  }

  function CodesOf(e: Event): (log: seq<seq<nat>>) {
    match e
    case HmsChanged(codes) => [codes]
    case _ => []
  }

  /** The first decodable work state that was pushed. */
  function FirstState(pushes: seq<seq<Byte>>): (r: Option<Byte>) {
    if pushes == [] then None
    else
      var n := |pushes| - 1;
      var before, kvs := FirstState(pushes[..n]), ValuesOf(pushes[n]);
      if before.Some? || kvs.None? then before else Field(kvs.value, CUR_WORK_STATE, WorkState)
  }

  lemma WalksOneMore(events: seq<Event>, e: Event, first: Byte)
    ensures StateWalk(events + [e], first)
            == match e
               case StateChanged(x, y) => if StateWalk(events, first) == Some(x) && x != y then Some(y) else None
               case _ => StateWalk(events, first)
    ensures DiagWalk(events + [e])
            == match e
               case DiagChanged(x, y) => if DiagWalk(events) == Some(x) && x != y then Some(y) else None
               case _ => DiagWalk(events)
    ensures HmsLog(events + [e]) == HmsLog(events) + CodesOf(e)
  {
    Without(events, e);
  }

  /** The events of one push, by kind. */
  lemma WalksOfPush(s: State, next: Status, first: Byte)
    ensures var events := s.events + StateEvent(s, next) + HmsEvent(s, next) + DiagEvent(s, next);
            && StateWalk(events, first) == StateWalk(s.events + StateEvent(s, next), first)
            && DiagWalk(events) == DiagWalk(s.events + DiagEvent(s, next))
            && HmsLog(events) == HmsLog(s.events) + (if HmsEvent(s, next) == [] then [] else [next.hms.value])
  {
    hide StateWalk, DiagWalk, HmsLog, Sorted;
    var e1, e2, e3 := StateEvent(s, next), HmsEvent(s, next), DiagEvent(s, next);
    AddAtMostOne(s.events, e1, first);
    AddAtMostOne(s.events + e1, e2, first);
    AddAtMostOne(s.events + e1 + e2, e3, first);
    AddAtMostOne(s.events, e3, first);
  }

  lemma AddAtMostOne(events: seq<Event>, more: seq<Event>, first: Byte)
    requires |more| <= 1
    ensures more == [] || !more[0].StateChanged? ==> StateWalk(events + more, first) == StateWalk(events, first)
    ensures more == [] || !more[0].DiagChanged? ==> DiagWalk(events + more) == DiagWalk(events)
    ensures more != [] && more[0].DiagChanged? ==>
              DiagWalk(events + more) == (if DiagWalk(events) == Some(more[0].oldDiag)
                  && more[0].oldDiag != more[0].newDiag then Some(more[0].newDiag) else None)
    ensures HmsLog(events + more) == HmsLog(events) + (if more == [] then [] else CodesOf(more[0]))
  {
    hide StateWalk, DiagWalk, HmsLog;
    if more == [] {
      assert events + more == events;
    } else {
      assert more == [more[0]];
      WalksOneMore(events, more[0], first);
    }
  }

  function Codes(pushes: seq<seq<Byte>>): (codes: seq<nat>) {
    var hms := Latest(pushes, HMS_CODE, HmsCodes);
    if hms.Some? then hms.value else [0, 0, 0, 0, 0, 0, 0, 0]
  }

  function DiagOf(pushes: seq<seq<Byte>>): (d: Diag) {
    var diag := Latest(pushes, LIDAR_DIAG_STATUS, DiagStatus);
    if diag.Some? then diag.value else Diag(0, 0, 0, 0)
  }

  /** What change detection compares with is what was pushed last. */
  lemma {:induction false} BaselinesAreTheLatest(pushes: seq<seq<Byte>>)
    ensures After(pushes).hmsSorted == Sorted(Codes(pushes)) && After(pushes).diagSeen == DiagOf(pushes)
  {
    hide CarriedOver, DecodeStatus, Merged, StateEvent, HmsEvent, DiagEvent, Sorted, ValuesOf, Latest;
    if pushes == [] {
      InitialBaselines();
    } else {
      var n := |pushes| - 1;
      BaselinesAreTheLatest(pushes[..n]);
      StatusIsTheLatest(pushes);
      assert pushes[..n] + [pushes[n]] == pushes;
      LatestStep(pushes[..n], pushes[n], HMS_CODE, HmsCodes);
      LatestStep(pushes[..n], pushes[n], LIDAR_DIAG_STATUS, DiagStatus);
    }
  }

  lemma InitialBaselines()
    ensures Sorted(Codes([])) == NO_CODES && DiagOf([]) == NORMAL
  {
    hide Sorted;
    SortedIsSorted(NO_CODES);
    AscendingIsUnique(Sorted(NO_CODES), NO_CODES);
  }

  /**
    Any pushes: an HMS event is raised by a push exactly if the multiset of the eight raw codes differs
    from the one before, whatever the order of the slots, and it carries the codes of that push.
  */
  lemma HmsEventsExactly(pushes: seq<seq<Byte>>, d: seq<Byte>)
    ensures var before, after := Codes(pushes), Codes(pushes + [d]);
            HmsLog(After(pushes + [d]).events)
            == HmsLog(After(pushes).events) + (if multiset(after) != multiset(before) then [after] else [])
  {
    hide After, Pushed, Sorted, ValuesOf, Latest, HmsLog, LatestStatus;
    var s, kvs := After(pushes), ValuesOf(d);
    HmsOfPush(pushes, d);
    BaselinesAreTheLatest(pushes);
    StatusIsTheLatest(pushes + [d]);
    HmsOfStatus(pushes + [d]);
    LatestStep(pushes, d, HMS_CODE, HmsCodes);
    SortedTellsMultisets(Codes(pushes + [d]), Codes(pushes));
  }

  lemma HmsOfStatus(pushes: seq<seq<Byte>>)
    ensures LatestStatus(pushes).hms == Latest(pushes, HMS_CODE, HmsCodes)
  {
    hide Latest;
  }

  /** What one more datagram adds to the HMS events. */
  lemma HmsOfPush(pushes: seq<seq<Byte>>, d: seq<Byte>)
    ensures var s, t := After(pushes), After(pushes + [d]);
            HmsLog(t.events) == HmsLog(s.events) +
              (if ValuesOf(d).Some? && Known(t).hms.Some? && Sorted(Known(t).hms.value) != s.hmsSorted
               then [Known(t).hms.value] else [])
  {
    hide Merged, StateEvent, DiagEvent, Sorted, ValuesOf, HmsLog, StateWalk, DiagWalk;
    Without(pushes, d);
    var s := After(pushes);
    if ValuesOf(d).Some? { WalksOfPush(s, Merged(s, ValuesOf(d).value), 0); }
  }

  /** Any pushes: the diagnosis events form a chain of real changes from normal to the latest diagnosis. */
  lemma {:induction false} DiagEventsChain(pushes: seq<seq<Byte>>)
    ensures DiagWalk(After(pushes).events) == Some(DiagOf(pushes))
  {
    hide CarriedOver, DecodeStatus, Merged, StateEvent, HmsEvent, Sorted, ValuesOf, Latest, DiagWalk;
    if pushes == [] {
      InitialBaselines();
      NoEvents(0);
    } else {
      var n := |pushes| - 1;
      DiagEventsChain(pushes[..n]);
      BaselinesAreTheLatest(pushes[..n]);
      BaselinesAreTheLatest(pushes);
      var s, kvs := After(pushes[..n]), ValuesOf(pushes[n]);
      if kvs.Some? {
        var next := Merged(s, kvs.value);
        WalksOfPush(s, next, 0);
        AddAtMostOne(s.events, DiagEvent(s, next), 0);
      } else {
        assert pushes[..n] + [pushes[n]] == pushes;
        LatestStep(pushes[..n], pushes[n], LIDAR_DIAG_STATUS, DiagStatus);
      }
    }
  }

  lemma NoEvents(first: Byte)
    ensures DiagWalk([]) == Some(NORMAL) && StateWalk([], first) == Some(first)
  {
  }

  lemma FirstStateStep(pushes: seq<seq<Byte>>, d: seq<Byte>)
    ensures FirstState(pushes + [d])
            == if FirstState(pushes).Some? || ValuesOf(d).None? then FirstState(pushes)
               else Field(ValuesOf(d).value, CUR_WORK_STATE, WorkState)
  {
    hide ValuesOf, Field;
    Without(pushes, d);
  }

  /**
    Any pushes: once a work state is known, the state events form an unbroken chain of real changes
    from the first one pushed to the latest; before that there is none.
  */
  lemma {:induction false} StateEventsChain(pushes: seq<seq<Byte>>)
    ensures FirstState(pushes).Some? <==> Latest(pushes, CUR_WORK_STATE, WorkState).Some?
    ensures FirstState(pushes).None? ==> forall first: Byte :: StateWalk(After(pushes).events, first) == Some(first)
    ensures FirstState(pushes).Some? ==>
              StateWalk(After(pushes).events, FirstState(pushes).value) == Latest(pushes, CUR_WORK_STATE, WorkState)
  {
    hide CarriedOver, DecodeStatus, Merged, HmsEvent, DiagEvent, Sorted, ValuesOf, Latest, FirstState, StateWalk, Field;
    if pushes == [] {
      NoStates();
    } else {
      var n := |pushes| - 1;
      var before, d := pushes[..n], pushes[n];
      assert before + [d] == pushes;
      StateEventsChain(before);
      FirstStateStep(before, d);
      LatestStep(before, d, CUR_WORK_STATE, WorkState);
      StatusIsTheLatest(before);
      StatusIsTheLatest(pushes);
      var s, kvs := After(before), ValuesOf(d);
      if kvs.Some? {
        var next := Merged(s, kvs.value);
        assert next.curWorkState == Latest(pushes, CUR_WORK_STATE, WorkState);
        forall first: Byte
          ensures StateWalk(After(pushes).events, first)
                  == if StateEvent(s, next) == [] then StateWalk(s.events, first)
                     else if StateWalk(s.events, first) == Known(s).curWorkState then next.curWorkState else None
        {
          WalksOfPush(s, next, first);
          StateStepHolds(s, next, first);
        }
      }
    }
  }

  /** One push leads the walk from the known state to the next. */
  ghost predicate StateStep(s: State, next: Status, first: Byte) {
    StateWalk(s.events + StateEvent(s, next), first)
    == if StateEvent(s, next) == [] then StateWalk(s.events, first)
       else if StateWalk(s.events, first) == Known(s).curWorkState then next.curWorkState else None
  }

  lemma StateStepHolds(s: State, next: Status, first: Byte)
    ensures StateStep(s, next, first)
  {
    hide StateWalk;
    var e := StateEvent(s, next);
    if e == [] {
      assert s.events + e == s.events;
    } else {
      WalksOneMore(s.events, e[0], first);
    }
  }

  lemma NoStates()
    ensures FirstState([]) == None && Latest([], CUR_WORK_STATE, WorkState) == None
    ensures forall first: Byte :: StateWalk([], first) == Some(first)
  {
  }
}
