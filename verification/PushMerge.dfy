/**
  Merging of the 0x0102 status pushes (src/device.cpp, src/lidar_info.cpp): a field that a push lacks,
  or carries undecodable, keeps its value; changes of state, diagnosis and HMS codes raise events.
*/
module PushMerge {
  import opened Bytes
  import opened CommandFrame
  import opened KeyValueList
  import opened Keys
  import opened Wrappers

  const INFO_PUSH := 0x0102

  function CoreTemp(v: seq<Byte>): (r: Option<int>) { Signed(v, 4) }
  function PowerupCnt(v: seq<Byte>): (r: Option<nat>) { Unsigned(v, 4) }
  function Time(v: seq<Byte>): (r: Option<nat>) { Unsigned(v, 8) }
  function TimeOffset(v: seq<Byte>): (r: Option<int>) { Signed(v, 8) }
  function TimeSyncType(v: seq<Byte>): (r: Option<Byte>) { UpTo(v, 2) }
  function FwType(v: seq<Byte>): (r: Option<Byte>) { UpTo(v, 1) }

  datatype Status = Status(
    curWorkState: Option<Byte>, coreTemp: Option<int>, powerupCnt: Option<nat>, localTimeNow: Option<nat>,
    lastSyncTime: Option<nat>, timeOffset: Option<int>, timeSyncType: Option<Byte>, diag: Option<Diag>,
    fwType: Option<Byte>, hms: Option<seq<nat>>)

  datatype Event =
    | StateChanged(oldState: Byte, newState: Byte)
    | HmsChanged(codes: seq<nat>)
    | DiagChanged(oldDiag: Diag, newDiag: Diag)

  /** The value under a key, if it is there and decodable. */
  function Field<T>(kvs: seq<KeyValue>, key: U16, decode: seq<Byte> -> Option<T>): (r: Option<T>) {
    match FindKey(kvs, key)
    case None => None
    case Some(raw) => decode(raw)
  }

  /** decode_status. */
  function DecodeStatus(kvs: seq<KeyValue>): (s: Status) {
    Status(
      Field(kvs, CUR_WORK_STATE, WorkState), Field(kvs, CORE_TEMP, CoreTemp),
      Field(kvs, POWERUP_CNT, PowerupCnt), Field(kvs, LOCAL_TIME_NOW, Time),
      Field(kvs, LAST_SYNC_TIME, Time), Field(kvs, TIME_OFFSET, TimeOffset),
      Field(kvs, TIME_SYNC_TYPE, TimeSyncType), Field(kvs, LIDAR_DIAG_STATUS, DiagStatus),
      Field(kvs, FW_TYPE, FwType), Field(kvs, HMS_CODE, HmsCodes))
  }

  function Keep<T>(next: Option<T>, prev: Option<T>): (r: Option<T>) {
    if next.Some? then next else prev
  }

  /** carry_over. */
  function CarriedOver(next: Status, prev: Status): (s: Status) {
    Status(
      Keep(next.curWorkState, prev.curWorkState), Keep(next.coreTemp, prev.coreTemp),
      Keep(next.powerupCnt, prev.powerupCnt), Keep(next.localTimeNow, prev.localTimeNow),
      Keep(next.lastSyncTime, prev.lastSyncTime), Keep(next.timeOffset, prev.timeOffset),
      Keep(next.timeSyncType, prev.timeSyncType), Keep(next.diag, prev.diag),
      Keep(next.fwType, prev.fwType), Keep(next.hms, prev.hms))
  }

  const EMPTY := Status(None, None, None, None, None, None, None, None, None, None)

  // ---------------------------------------------------------------------------
  // Sorting
  // ---------------------------------------------------------------------------

  function Insert(sorted: seq<nat>, x: nat): (r: seq<nat>) {
    if sorted == [] then [x]
    else
      var n := |sorted| - 1;
      if sorted[n] <= x then sorted + [x] else Insert(sorted[..n], x) + [sorted[n]]
  }

  function Sorted(s: seq<nat>): (r: seq<nat>) {
    if s == [] then [] else Insert(Sorted(s[..|s| - 1]), s[|s| - 1])
  }

  predicate Ascending(s: seq<nat>) {
    forall i, j :: 0 <= i < j < |s| ==> s[i] <= s[j]
  }

  lemma {:induction false} InsertKeepsElements(sorted: seq<nat>, x: nat)
    ensures multiset(Insert(sorted, x)) == multiset(sorted) + multiset{x}
  {
    if sorted != [] {
      var n := |sorted| - 1;
      assert sorted == sorted[..n] + [sorted[n]];
      InsertKeepsElements(sorted[..n], x);
    }
  }

  lemma {:induction false} InsertIsBelow(sorted: seq<nat>, x: nat, bound: nat)
    requires x <= bound && forall i :: 0 <= i < |sorted| ==> sorted[i] <= bound
    ensures forall i :: 0 <= i < |Insert(sorted, x)| ==> Insert(sorted, x)[i] <= bound
  {
    if sorted != [] { InsertIsBelow(sorted[..|sorted| - 1], x, bound); }
  }

  lemma {:induction false} InsertSorts(sorted: seq<nat>, x: nat)
    requires Ascending(sorted)
    ensures Ascending(Insert(sorted, x))
  {
    if sorted != [] && sorted[|sorted| - 1] > x {
      var n := |sorted| - 1;
      InsertSorts(sorted[..n], x);
      InsertIsBelow(sorted[..n], x, sorted[n]);
    }
  }

  lemma {:induction false} SortedIsSorted(s: seq<nat>)
    ensures Ascending(Sorted(s)) && multiset(Sorted(s)) == multiset(s)
  {
    if s != [] {
      var n := |s| - 1;
      SortedIsSorted(s[..n]);
      InsertSorts(Sorted(s[..n]), s[n]);
      InsertKeepsElements(Sorted(s[..n]), s[n]);
      assert s == s[..n] + [s[n]];
    }
  }

  /** The last of an ascending sequence is no smaller than any element of it. */
  lemma LastIsLargest(s: seq<nat>, x: nat)
    requires Ascending(s) && x in multiset(s)
    ensures s != [] && x <= s[|s| - 1]
  {
    var i :| 0 <= i < |s| && s[i] == x;
  }

  lemma WithoutLast(s: seq<nat>)
    requires s != []
    ensures multiset(s[..|s| - 1]) == multiset(s) - multiset{s[|s| - 1]}
    ensures s[|s| - 1] in multiset(s)
  {
    assert s == s[..|s| - 1] + [s[|s| - 1]];
  }

  lemma AscendingPrefix(s: seq<nat>)
    requires Ascending(s) && s != []
    ensures Ascending(s[..|s| - 1])
  {
  }

  lemma SameLast(a: seq<nat>, b: seq<nat>)
    requires Ascending(a) && Ascending(b) && multiset(a) == multiset(b) && a != []
    ensures b != [] && a[|a| - 1] == b[|b| - 1]
  {
    hide Ascending;
    WithoutLast(a);
    LastIsLargest(b, a[|a| - 1]);
    WithoutLast(b);
    LastIsLargest(a, b[|b| - 1]);
  }

  lemma SameRest(a: seq<nat>, b: seq<nat>)
    requires a != [] && b != [] && a[|a| - 1] == b[|b| - 1]
    requires multiset(a) == multiset(b)
    ensures multiset(a[..|a| - 1]) == multiset(b[..|b| - 1])
  {
    WithoutLast(a);
    WithoutLast(b);
  }

  lemma Rejoined(a: seq<nat>, b: seq<nat>)
    requires a != [] && b != [] && a[|a| - 1] == b[|b| - 1] && a[..|a| - 1] == b[..|b| - 1]
    ensures a == b
  {
    assert a == a[..|a| - 1] + [a[|a| - 1]];
  }

  /** Ascending sequences of the same elements are equal. */
  lemma {:induction false} AscendingIsUnique(a: seq<nat>, b: seq<nat>)
    requires Ascending(a) && Ascending(b) && multiset(a) == multiset(b)
    ensures a == b
  {
    hide Ascending;
    if a != [] {
      SameLast(a, b);
      SameRest(a, b);
      AscendingPrefix(a);
      AscendingPrefix(b);
      AscendingIsUnique(a[..|a| - 1], b[..|b| - 1]);
      Rejoined(a, b);
    } else if b != [] {
      SameLast(b, a);
    }
  }

  lemma SortedTellsMultisets(a: seq<nat>, b: seq<nat>)
    ensures Sorted(a) == Sorted(b) <==> multiset(a) == multiset(b)
  {
    SortedIsSorted(a);
    SortedIsSorted(b);
    if multiset(a) == multiset(b) { AscendingIsUnique(Sorted(a), Sorted(b)); }
  }

  // ---------------------------------------------------------------------------
  // One push
  // ---------------------------------------------------------------------------

  datatype State = State(status: Option<Status>, hmsSorted: seq<nat>, diagSeen: Diag, events: seq<Event>,
      pushes: nat, badPackets: nat)

  const NO_CODES: seq<nat> := [0, 0, 0, 0, 0, 0, 0, 0]
  const INITIAL := State(None, NO_CODES, NORMAL, [], 0, 0)

  /** The values of a push, None for a datagram that is not one. */
  function ValuesOf(d: seq<Byte>): (kvs: Option<seq<KeyValue>>) {
    match Parse(d)
    case Err(_) => None
    case Ok(view) =>
      if view.header.cmdId != INFO_PUSH then None
      else
        match ParseInfoPush(view.data)
        case Err(_) => None
        case Ok(kvs) => Some(kvs)
  }

  function Merged(s: State, kvs: seq<KeyValue>): (next: Status) {
    var decoded := DecodeStatus(kvs);
    if s.status.Some? then CarriedOver(decoded, s.status.value) else decoded
  }

  function StateEvent(s: State, next: Status): (e: seq<Event>) {
    if s.status.Some? && s.status.value.curWorkState.Some? && next.curWorkState.Some?
       && s.status.value.curWorkState != next.curWorkState
    then [StateChanged(s.status.value.curWorkState.value, next.curWorkState.value)] else []
  }

  function HmsEvent(s: State, next: Status): (e: seq<Event>) {
    if next.hms.Some? && Sorted(next.hms.value) != s.hmsSorted then [HmsChanged(next.hms.value)] else []
  }

  function DiagEvent(s: State, next: Status): (e: seq<Event>) {
    if next.diag.Some? && next.diag.value != s.diagSeen then [DiagChanged(s.diagSeen, next.diag.value)] else []
  }

  function Pushed(s: State, d: seq<Byte>): (r: State) {
    match ValuesOf(d)
    case None => s.(badPackets := s.badPackets + 1)
    case Some(kvs) =>
      var next := Merged(s, kvs);
      State(Some(next),
            if next.hms.Some? then Sorted(next.hms.value) else s.hmsSorted,
            if next.diag.Some? then next.diag.value else s.diagSeen,
            s.events + StateEvent(s, next) + HmsEvent(s, next) + DiagEvent(s, next),
            s.pushes + 1, s.badPackets)
  }

  function After(pushes: seq<seq<Byte>>): (s: State) {
    if pushes == [] then INITIAL else Pushed(After(pushes[..|pushes| - 1]), pushes[|pushes| - 1])
  }

  class PushMerger {
    var status: Option<Status>
    var hmsSorted: seq<nat>
    var diagSeen: Diag
    var events: seq<Event>
    var pushes: nat
    var badPackets: nat

    constructor ()
      ensures View() == INITIAL
    {
      status, hmsSorted, diagSeen, events, pushes, badPackets := None, NO_CODES, NORMAL, [], 0, 0;
    }

    function View(): State
      reads this
    {
      State(status, hmsSorted, diagSeen, events, pushes, badPackets)
    }

    /** on_push. */
    method OnPush(d: seq<Byte>)
      modifies this
      ensures View() == Pushed(old(View()), d)
    {
      hide Merged, StateEvent, HmsEvent, DiagEvent, Sorted, Parse, ParseInfoPush;
      var frame := Parse(d);
      if frame.Err? || frame.value.header.cmdId != INFO_PUSH {
        badPackets := badPackets + 1;
        return;
      }
      var push := ParseInfoPush(frame.value.data);
      if push.Err? {
        badPackets := badPackets + 1;
        return;
      }
      Merge(push.value);
      pushes := pushes + 1;
    }

    /** The part of on_push() under push_mutex. */
    method Merge(kvs: seq<KeyValue>)
      modifies this`status, this`hmsSorted, this`diagSeen, this`events
      ensures var s := old(View());
              var next := Merged(s, kvs);
              && status == Some(next)
              && hmsSorted == (if next.hms.Some? then Sorted(next.hms.value) else s.hmsSorted)
              && diagSeen == (if next.diag.Some? then next.diag.value else s.diagSeen)
              && events == s.events + StateEvent(s, next) + HmsEvent(s, next) + DiagEvent(s, next)
    {
      hide DecodeStatus, CarriedOver, Sorted;
      var next := DecodeStatus(kvs);
      if status.Some? { next := CarriedOver(next, status.value); }
      if next.curWorkState.Some? && status.Some? && status.value.curWorkState.Some?
         && status.value.curWorkState != next.curWorkState {
        events := events + [StateChanged(status.value.curWorkState.value, next.curWorkState.value)];
      }
      if next.hms.Some? {
        var sorted := Sorted(next.hms.value);
        if sorted != hmsSorted {
          hmsSorted := sorted;
          events := events + [HmsChanged(next.hms.value)];
        }
      }
      if next.diag.Some? && next.diag.value != diagSeen {
        events := events + [DiagChanged(diagSeen, next.diag.value)];
        diagSeen := next.diag.value;
      }
      status := Some(next);
    }
  }
}
