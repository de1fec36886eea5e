/** The registry of a Context (src/context.cpp, src/context_impl.hpp): which receiver gets which source's datagrams. */
module Registry {
  import opened Bytes
  import opened Wrappers

  /** Receivers and device handles are known by number. */
  datatype Entry = Entry(ip: U32, receiver: nat, serial: string, device: Option<nat>)

  datatype AddResult = Added | DuplicateIp | DuplicateSerial

  predicate HasIp(entries: seq<Entry>, ip: U32) {
    exists k :: 0 <= k < |entries| && entries[k].ip == ip
  }

  predicate HasSerial(entries: seq<Entry>, serial: string) {
    exists k :: 0 <= k < |entries| && entries[k].serial == serial
  }

  predicate HasReceiver(entries: seq<Entry>, receiver: nat) {
    exists k :: 0 <= k < |entries| && entries[k].receiver == receiver
  }

  /** No two entries share a source address or a serial number. */
  predicate Unique(entries: seq<Entry>) {
    forall i, j :: 0 <= i < j < |entries| ==>
                     entries[i].ip != entries[j].ip && entries[i].serial != entries[j].serial
  }

  function AddOutcome(entries: seq<Entry>, ip: U32, serial: string): (r: AddResult) {
    if HasIp(entries, ip) then DuplicateIp else if HasSerial(entries, serial) then DuplicateSerial else Added
  }

  function AfterAdd(entries: seq<Entry>, ip: U32, serial: string, receiver: nat): (r: seq<Entry>)
    ensures Unique(entries) ==> Unique(r)
    ensures forall x :: x != receiver && HasReceiver(r, x) ==> HasReceiver(entries, x)
  {
    if AddOutcome(entries, ip, serial) == Added then entries + [Entry(ip, receiver, serial, None)] else entries
  }

  function AfterBind(entries: seq<Entry>, receiver: nat, device: Option<nat>): (r: seq<Entry>)
    ensures |r| == |entries|
    ensures forall k :: 0 <= k < |r| ==>
                          r[k] == if entries[k].receiver == receiver then entries[k].(device := device) else entries[k]
  {
    if entries == [] then []
    else
      var n := |entries| - 1;
      var e := entries[n];
      AfterBind(entries[..n], receiver, device) + [if e.receiver == receiver then e.(device := device) else e]
  }

  /** The position of the first entry of the receiver. */
  function FirstOf(entries: seq<Entry>, receiver: nat): (k: nat)
    ensures k <= |entries|
    ensures k < |entries| ==> entries[k].receiver == receiver
    ensures forall i :: 0 <= i < k ==> entries[i].receiver != receiver
  {
    if entries == [] then 0
    else
      var n := |entries| - 1;
      var k := FirstOf(entries[..n], receiver);
      if k < n || entries[n].receiver == receiver then k else |entries|
  }

  lemma FirstIs(entries: seq<Entry>, receiver: nat, k: nat)
    requires k <= |entries| && (k < |entries| ==> entries[k].receiver == receiver)
    requires forall i :: 0 <= i < k ==> entries[i].receiver != receiver
    ensures k == FirstOf(entries, receiver)
  {
    var first := FirstOf(entries, receiver);
    assert first < |entries| ==> entries[first].receiver == receiver;
  }

  /** Whether rekey() moves the receiver's entry; it also succeeds when it need not. */
  predicate Moves(entries: seq<Entry>, receiver: nat, ip: U32) {
    var k := FirstOf(entries, receiver);
    k < |entries| && entries[k].ip != ip && !HasIp(entries, ip)
  }

  function AfterRekey(entries: seq<Entry>, receiver: nat, ip: U32): (r: seq<Entry>)
    ensures Unique(entries) ==> Unique(r)
    ensures |r| == |entries| && forall k :: 0 <= k < |r| ==> r[k].receiver == entries[k].receiver
  {
    if Moves(entries, receiver, ip) then
      var k := FirstOf(entries, receiver);
      entries[k := entries[k].(ip := ip)]
    else entries
  }

  function AfterErase(entries: seq<Entry>, receiver: nat): (r: seq<Entry>)
    ensures Unique(entries) ==> Unique(r)
    ensures forall e :: e in r <==> e in entries && e.receiver != receiver
    ensures !HasReceiver(r, receiver)
    ensures forall x :: HasReceiver(r, x) ==> HasReceiver(entries, x)
  {
    if entries == [] then []
    else
      var n := |entries| - 1;
      var before := AfterErase(entries[..n], receiver);
      if entries[n].receiver == receiver then before else before + [entries[n]]
  }

  /** The receiver of the datagrams of a source. */
  function ReceiverOf(entries: seq<Entry>, ip: U32): (r: Option<nat>)
    ensures r.Some? ==> HasReceiver(entries, r.value)
    ensures r.None? <==> !HasIp(entries, ip)
    ensures forall k :: 0 <= k < |entries| && Unique(entries) && entries[k].ip == ip ==> r == Some(entries[k].receiver)
  {
    if entries == [] then None
    else
      var n := |entries| - 1;
      var r := ReceiverOf(entries[..n], ip);
      if r.Some? then assert HasReceiver(entries[..n], r.value); r
      else if entries[n].ip == ip then Some(entries[n].receiver) else None
  }

  /** A call of on_datagram. */
  datatype Call = Call(receiver: nat, ip: U32)

  /** The calls for a batch, in order; datagrams of unknown sources make none. */
  function Calls(snapshot: seq<Entry>, batch: seq<U32>): (calls: seq<Call>)
    ensures |calls| <= |batch|
  {
    if batch == [] then []
    else
      var n := |batch| - 1;
      var before := Calls(snapshot, batch[..n]);
      match ReceiverOf(snapshot, batch[n])
      case None => before
      case Some(r) => before + [Call(r, batch[n])]
  }

  class ContextRegistry {
    var entries: seq<Entry>
    var generation: nat
    var observed: nat
    var snapshot: seq<Entry>
    var seen: nat
    var datagrams: nat
    var unknownSource: nat

    constructor ()
      ensures entries == [] && snapshot == [] && generation == 1 && observed == seen == 0
      ensures datagrams == unknownSource == 0
    {
      entries, generation, observed, snapshot, seen, datagrams, unknownSource := [], 1, 0, [], 0, 0, 0;
    }

    method AnyIp(ip: U32) returns (found: bool)
      ensures found == HasIp(entries, ip)
    {
      found := false;
      for k := 0 to |entries|
        invariant found <==> exists i :: 0 <= i < k && entries[i].ip == ip
      {
        if entries[k].ip == ip { found := true; }
      }
    }

    method AnySerial(serial: string) returns (found: bool)
      ensures found == HasSerial(entries, serial)
    {
      found := false;
      for k := 0 to |entries|
        invariant found <==> exists i :: 0 <= i < k && entries[i].serial == serial
      {
        if entries[k].serial == serial { found := true; }
      }
    }

    /** Context::Impl::add. */
    method Add(ip: U32, serial: string, receiver: nat) returns (r: AddResult)
      modifies this`entries, this`generation
      ensures r == AddOutcome(old(entries), ip, serial)
      ensures entries == AfterAdd(old(entries), ip, serial, receiver)
      ensures generation == if r == Added then old(generation) + 1 else old(generation)
    {
      var taken := AnyIp(ip);
      if taken { return DuplicateIp; }
      taken := AnySerial(serial);
      if taken { return DuplicateSerial; }
      entries := entries + [Entry(ip, receiver, serial, None)];
      generation := generation + 1;
      r := Added;
    }

    /** Context::Impl::bind: no new generation. */
    method Bind(receiver: nat, device: Option<nat>)
      modifies this`entries
      ensures entries == AfterBind(old(entries), receiver, device)
    {
      ghost var before := entries;
      for k := 0 to |entries|
        invariant |entries| == |before|
        invariant forall i :: 0 <= i < k ==> entries[i] == AfterBind(before, receiver, device)[i]
        invariant forall i :: k <= i < |entries| ==> entries[i] == before[i]
      {
        if entries[k].receiver == receiver { entries := entries[k := entries[k].(device := device)]; }
      }
    }

    /** Context::Impl::rekey. */
    method Rekey(receiver: nat, ip: U32) returns (ok: bool)
      modifies this`entries, this`generation
      ensures entries == AfterRekey(old(entries), receiver, ip)
      ensures generation == if Moves(old(entries), receiver, ip) then old(generation) + 1 else old(generation)
      ensures ok <==> HasReceiver(old(entries), receiver) && entries[FirstOf(entries, receiver)].ip == ip
    {
      var k := 0;
      while k < |entries| && entries[k].receiver != receiver
        invariant 0 <= k <= |entries|
        invariant forall i :: 0 <= i < k ==> entries[i].receiver != receiver
      {
        k := k + 1;
      }
      FirstIs(entries, receiver, k);
      if k == |entries| { return false; }
      if entries[k].ip == ip { return true; }
      var taken := AnyIp(ip);
      if taken { return false; }
      entries := entries[k := entries[k].(ip := ip)];
      FirstIs(entries, receiver, k);
      generation := generation + 1;
      ok := true;
    }

    /** The first half of Context::Impl::remove: the generation to wait for. */
    method Erase(receiver: nat) returns (target: nat)
      modifies this`entries, this`generation
      ensures entries == AfterErase(old(entries), receiver)
      ensures target == generation == old(generation) + 1
    {
      var kept: seq<Entry> := [];
      for k := 0 to |entries|
        invariant kept == AfterErase(entries[..k], receiver)
      {
        assert entries[..k + 1][..k] == entries[..k];
        if entries[k].receiver != receiver { kept := kept + [entries[k]]; }
      }
      assert entries[..|entries|] == entries;
      entries := kept;
      generation := generation + 1;
      target := generation;
    }

    /** The refresh of the receive thread. */
    method Refresh()
      modifies this`snapshot, this`seen, this`observed
      ensures if old(generation) == old(seen) then snapshot == old(snapshot) && seen == old(seen) && observed
          == old(observed)
              else snapshot == entries && seen == observed == generation
    {
      if generation == seen { return; }
      snapshot := entries;
      seen := generation;
      observed := seen;
    }

    /** The dispatch of a received batch: every datagram is either handed over or counted as unknown. */
    method Dispatch(batch: seq<U32>) returns (calls: seq<Call>)
      modifies this`datagrams, this`unknownSource
      ensures calls == Calls(snapshot, batch)
      ensures datagrams == old(datagrams) + |batch|
      ensures unknownSource + |calls| == old(unknownSource) + |batch|
    {
      datagrams := datagrams + |batch|;
      calls := [];
      for i := 0 to |batch|
        invariant calls == Calls(snapshot, batch[..i])
        invariant datagrams == old(datagrams) + |batch|
        invariant unknownSource + |calls| == old(unknownSource) + i
      {
        assert batch[..i + 1][..i] == batch[..i];
        var r := ReceiverOf(snapshot, batch[i]);
        if r.None? { unknownSource := unknownSource + 1; } else { calls := calls + [Call(r.value, batch[i])]; }
      }
      assert batch[..|batch|] == batch;
    }
  }
}
