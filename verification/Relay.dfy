/** Modules that pass requests on and send responses back by the trace of the message. */
module Relay {
  import opened Wrappers
  import opened Traces
  import opened Messages

  const NO_GATE_ID: int := -5

  function GateOf(outGate: Option<int>): int {
    if outGate.Some? then outGate.value else NO_GATE_ID
  }

  /** Incrementing a reqNum_t, an unsigned long. */
  function Following(request: nat): nat {
    (request + 1) % 0x1_0000_0000_0000_0000
  }

  /** icancloud_Base: every module of the simulator. */
  class Base {
    const id: int
    const hostName: string
    var queue: seq<Message>
    var currentRequest: nat

    constructor (id: int, hostName: string)
      ensures this.id == id && this.hostName == hostName && queue == [] && currentRequest == 0
    {
      this.id, this.hostName, queue, currentRequest := id, hostName, [], 0;
    }

    /** `outGate` is what getOutGate() answers for this message: the gate back to its sender. */
    method UpdateMessageTrace(sm: Message, outGate: Option<int>)
      requires sm.trace != []
      modifies this`currentRequest, sm
      ensures sm.trace == PushModule(old(sm.trace), id, GateOf(outGate), old(currentRequest))
      ensures currentRequest == Following(old(currentRequest))
    {
      var gateId := NO_GATE_ID;
      if outGate.Some? {
        gateId := outGate.value;
      }
      sm.AddModuleToTrace(id, gateId, currentRequest);
      currentRequest := Following(currentRequest);
    }

    /** processCurrentRequestMessage(): the oldest request leaves the queue, unless a
        latency timer is running. */
    method ProcessCurrentRequestMessage(pending: bool) returns (next: Option<Message>)
      modifies this`queue
      ensures pending || old(queue) == [] ==> next == None && queue == old(queue)
      ensures !pending && old(queue) != [] ==> next.Some? && old(queue) == [next.value] + queue
    {
      next := None;
      if !pending {
        if queue != [] {
          next := Some(queue[0]);
          queue := queue[1..];
        }
      }
    }

    /** handleMessage() for a request. */
    method HandleRequest(sm: Message, outGate: Option<int>, pending: bool) returns (next: Option<Message>)
      requires sm.trace != []
      modifies this, sm
      ensures sm.trace == PushModule(old(sm.trace), id, GateOf(outGate), old(currentRequest))
      ensures currentRequest == Following(old(currentRequest))
      ensures old(queue) + [sm] == (if next.Some? then [next.value] else []) + queue
      ensures next.Some? <==> !pending
    {
      UpdateMessageTrace(sm, outGate);
      queue := queue + [sm];
      next := ProcessCurrentRequestMessage(pending);
    }

    /** sendRequestMessage(): the first module of a request starts its trace. */
    method SendRequestMessage(sm: Message, outGate: Option<int>, pending: bool) returns (next: Option<Message>)
      modifies this, sm
      ensures old(sm.trace) != [] ==> sm.trace == old(sm.trace) && currentRequest == old(currentRequest)
      ensures old(sm.trace) == [] ==>
                && sm.trace == Onward([Node(hostName, [])], [Hop(id, GateOf(outGate), old(currentRequest))])
                && currentRequest == Following(old(currentRequest))
      ensures old(queue) == (if next.Some? then [next.value] else []) + queue
    {
      if sm.IsTraceEmpty() {
        sm.AddNodeToTrace(hostName);
        assert sm.trace == [Node(hostName, [])];
        UpdateMessageTrace(sm, outGate);
      }
      next := ProcessCurrentRequestMessage(pending);
    }

    /** sendResponseMessage(): back by the gate that was recorded on the way here. */
    method SendResponseMessage(sm: Message, pending: bool) returns (gateId: int, next: Option<Message>)
      requires HasModule(sm.trace)
      modifies this`queue, sm
      ensures gateId == LastModule(old(sm.trace)).gateID && sm.trace == PopModule(old(sm.trace))
      ensures old(queue) == (if next.Some? then [next.value] else []) + queue
    {
      gateId := sm.GetLastGateId();
      sm.RemoveLastModuleFromTrace();
      next := ProcessCurrentRequestMessage(pending);
    }
  }

  // ---------------------------------------------------------------- the numbers a module gives

  /** A request that one module records: its trace, and the gate back if there is one. */
  datatype Visit = Visit(trace: Trace, outGate: Option<int>)

  /** The counter of the module, and the traces of the requests it has recorded. */
  datatype Books = Books(counter: nat, records: seq<Trace>)

  predicate Started(visits: seq<Visit>) {
    forall i :: 0 <= i < |visits| ==> visits[i].trace != []
  }

  /** updateMessageTrace() for one request after the other, from initialize() on. */
  function RecordAll(id: int, visits: seq<Visit>): Books
    requires Started(visits)
  {
    if visits == [] then Books(0, [])
    else
      var v, b := visits[|visits| - 1], RecordAll(id, visits[..|visits| - 1]);
      Books(Following(b.counter), b.records + [PushModule(v.trace, id, GateOf(v.outGate), b.counter)])
  }

  /** The trace u is t with one more module at the end of its last node. */
  predicate HasOneMore(t: Trace, u: Trace, c: Component)
    requires t != []
  {
    var n := |t| - 1;
    |u| == |t| && u[..n] == t[..n] && u[n].host == t[n].host && u[n].modules == t[n].modules + [c]
  }

  lemma PushHasOneMore(t: Trace, id: int, gate: int, request: nat)
    requires t != []
    ensures HasOneMore(t, PushModule(t, id, gate, request), Component(id, gate, [request]))
  {
  }

  lemma {:induction false} CounterIsCount(id: int, visits: seq<Visit>)
    requires Started(visits)
    ensures |RecordAll(id, visits).records| == |visits|
    ensures RecordAll(id, visits).counter == |visits| % 0x1_0000_0000_0000_0000
  {
    if visits != [] { CounterIsCount(id, visits[..|visits| - 1]); }
  }

  /** Whatever other requests pass, the k-th request a module records, counting from 0, gets that
      module with its gate back and the number k, modulo 2^64. */
  lemma {:induction false} RecordsAreNumbered(id: int, visits: seq<Visit>, k: nat)
    requires Started(visits) && k < |visits|
    ensures |RecordAll(id, visits).records| == |visits|
    ensures HasOneMore(visits[k].trace, RecordAll(id, visits).records[k],
                       Component(id, if visits[k].outGate.Some? then visits[k].outGate.value else -5,
                                 [k % 0x1_0000_0000_0000_0000]))
  {
    var n := |visits| - 1;
    CounterIsCount(id, visits);
    CounterIsCount(id, visits[..n]);
    if k < n {
      RecordsAreNumbered(id, visits[..n], k);
    } else {
      var v := visits[n];
      PushHasOneMore(v.trace, id, GateOf(v.outGate), RecordAll(id, visits[..n]).counter);
    }
  }

  /** Two requests that one module records fewer than 2^64 apart do not get the same record. */
  lemma RecordsAreApart(id: int, visits: seq<Visit>, j: nat, k: nat)
    requires Started(visits) && j < k < |visits| && k - j < 0x1_0000_0000_0000_0000
    ensures |RecordAll(id, visits).records| == |visits|
    ensures var (t, u) := (RecordAll(id, visits).records[j], RecordAll(id, visits).records[k]);
            HasModule(t) && HasModule(u) && LastModule(t) != LastModule(u)
  {
    RecordsAreNumbered(id, visits, j);
    RecordsAreNumbered(id, visits, k);
    ApartModulo(j, k);
    var (t, u) := (RecordAll(id, visits).records[j], RecordAll(id, visits).records[k]);
    assert LastModule(t).reqSequence == [j % 0x1_0000_0000_0000_0000];
    assert LastModule(u).reqSequence == [k % 0x1_0000_0000_0000_0000];
  }

  lemma ApartModulo(j: nat, k: nat)
    requires j < k && k - j < 0x1_0000_0000_0000_0000
    ensures j % 0x1_0000_0000_0000_0000 != k % 0x1_0000_0000_0000_0000
  {
  }

  // ---------------------------------------------------------------- a request and its response

  /** A visit of a request: the module, the gate back to where it came from, and the
      module's request counter at that moment (whatever other requests did to it). */
  datatype Hop = Hop(id: int, gate: int, request: nat)

  /** The trace after the visits, as handleMessage() extends it. */
  function Onward(t: Trace, hops: seq<Hop>): (u: Trace)
    requires t != []
    ensures |u| == |t|
  {
    if hops == [] then t
    else
      var h := hops[|hops| - 1];
      PushModule(Onward(t, hops[..|hops| - 1]), h.id, h.gate, h.request)
  }

  /** Which module the out gate of a module leads to. */
  type Wiring = map<(int, int), int>

  /** getOutGate() is right at every visit but the first: its gate leads back. */
  predicate LeadsBack(w: Wiring, hops: seq<Hop>) {
    forall i :: 1 <= i < |hops| ==> (hops[i].id, hops[i].gate) in w && w[(hops[i].id, hops[i].gate)] == hops[i - 1].id
  }

  datatype Place = Place(id: int, trace: Trace)

  /** One sendResponseMessage(); None where the source would pop from an empty trace or
      use a gate that leads nowhere. */
  function Back(w: Wiring, p: Place): Option<Place> {
    if !HasModule(p.trace) then None
    else
      var gate := LastModule(p.trace).gateID;
      if (p.id, gate) in w then Some(Place(w[(p.id, gate)], PopModule(p.trace))) else None
  }

  function BackTimes(w: Wiring, p: Place, k: nat): Option<Place> {
    if k == 0 then Some(p)
    else
      var q := BackTimes(w, p, k - 1);
      if q.None? then None else Back(w, q.value)
  }

  lemma PopUndoesPush(t: Trace, id: int, gate: int, request: nat)
    requires t != []
    ensures var u := PushModule(t, id, gate, request);
            HasModule(u) && LastModule(u).gateID == gate && PopModule(u) == t
  {
    var n := t[|t| - 1];
    assert (n.modules + [Component(id, gate, [request])])[..|n.modules|] == n.modules;
  }

  /** For any wiring, any walk of a request through it and any starting trace: the k-th
      hop of the response reaches the k-th last module of the walk, with exactly the trace
      the request had there, and no hop pops from an empty trace. */
  lemma {:induction false} ResponseRetraces(w: Wiring, t: Trace, hops: seq<Hop>, k: nat)
    requires t != [] && k < |hops| && LeadsBack(w, hops)
    ensures BackTimes(w, Place(hops[|hops| - 1].id, Onward(t, hops)), k)
         == Some(Place(hops[|hops| - 1 - k].id, Onward(t, hops[..|hops| - k])))
  {
    var n := |hops|;
    if k == 0 {
      assert hops[..n] == hops;
    } else {
      ResponseRetraces(w, t, hops, k - 1);
      var here := hops[..n - k + 1];
      var h := here[n - k];
      assert here[..n - k] == hops[..n - k];
      PopUndoesPush(Onward(t, hops[..n - k]), h.id, h.gate, h.request);
    }
  }
}
