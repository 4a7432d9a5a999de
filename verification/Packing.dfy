/** Serialisation of a trace into a communication buffer, and its rebuilding. */
module Packing {
  import opened Wrappers
  import opened Traces

  datatype Token = Int(i: int) | Text(s: string) | Request(n: nat)

  /** What a buffer gives back: the trace rebuilt so far and the tokens not yet read. */
  datatype Rebuilt = Rebuilt(trace: Trace, rest: seq<Token>)

  const NUL: char := '\0'

  /** c_str(): a host name ends at its first NUL. */
  function CStr(s: string): string {
    if s == "" || s[0] == NUL then "" else [s[0]] + CStr(s[1..])
  }

  // ---------------------------------------------------------------- packing

  function PackRequests(reqs: seq<nat>): seq<Token> {
    if reqs == [] then [] else [Request(reqs[0])] + PackRequests(reqs[1..])
  }

  function PackComponents(cs: seq<Component>): seq<Token> {
    if cs == [] then []
    else
      var c := cs[0];
      [Int(c.moduleID), Int(c.gateID), Int(|c.reqSequence|)] + PackRequests(c.reqSequence) + PackComponents(cs[1..])
  }

  function PackNodes(t: Trace): seq<Token> {
    if t == [] then []
    else [Text(CStr(t[0].host)), Int(|t[0].modules|)] + PackComponents(t[0].modules) + PackNodes(t[1..])
  }

  /** parsimPack(), the part that writes the trace. */
  function Pack(t: Trace): seq<Token> {
    [Int(|t|)] + PackNodes(t)
  }

  /** The format: number of nodes; for each node its host and number of modules; for each module
      its identifier, gate and number of requests; and the requests. */
  lemma PackedSample(h: string, m: int, g: int, r: nat, s: nat)
    requires NUL !in h
    ensures Pack([Node(h, [Component(m, g, [r, s])])])
         == [Int(1), Text(h), Int(1), Int(m), Int(g), Int(2), Request(r), Request(s)]
  {
    var c := Component(m, g, [r, s]);
    CStrExact(h);
    assert [r, s][1..] == [s] && [s][1..] == [] && [c][1..] == [] && [Node(h, [c])][1..] == [];
    assert PackRequests([s]) == [Request(s)] + PackRequests([]);
    assert PackRequests([r, s]) == [Request(r), Request(s)];
    assert PackComponents([c]) == [Int(m), Int(g), Int(2)] + [Request(r), Request(s)] + [];
    assert PackNodes([Node(h, [c])]) == [Text(h), Int(1)] + PackComponents([c]) + [];
  }

  // ---------------------------------------------------------------- unpacking

  /** addRequestToTrace() takes an int: the low 32 bits, sign-extended to a reqNum_t. */
  function Narrow(r: nat): nat {
    AsRequest(AsInt(r))
  }

  /** Requests k .. n-1 of one module: the first creates the module. */
  function UnpackRequests(t: Trace, b: seq<Token>, id: int, gate: int, k: nat, n: int): Option<Rebuilt>
    requires t != [] && (k > 0 ==> HasModule(t))
    decreases n - k
  {
    if k >= n then Some(Rebuilt(t, b))
    else if b == [] || !b[0].Request? then None
    else
      var u := if k == 0 then PushModule(t, id, gate, b[0].n) else PushRequest(t, Narrow(b[0].n));
      UnpackRequests(u, b[1..], id, gate, k + 1, n)
  }

  function UnpackComponents(t: Trace, b: seq<Token>, k: nat, n: int): (r: Option<Rebuilt>)
    requires t != []
    ensures r.Some? ==> r.value.trace != []
    decreases n - k
  {
    if k >= n then Some(Rebuilt(t, b))
    else if |b| < 3 || !b[0].Int? || !b[1].Int? || !b[2].Int? then None
    else
      var r := UnpackRequests(t, b[3..], b[0].i, b[1].i, 0, b[2].i);
      if r.None? || r.value.trace == [] then None else UnpackComponents(r.value.trace, r.value.rest, k + 1, n)
  }

  function UnpackNodes(t: Trace, b: seq<Token>, k: nat, n: int): Option<Rebuilt>
    decreases n - k
  {
    if k >= n then Some(Rebuilt(t, b))
    else if |b| < 2 || !b[0].Text? || !b[1].Int? then None
    else
      var r := UnpackComponents(t + [Node(b[0].s, [])], b[2..], 0, b[1].i);
      if r.None? then None else UnpackNodes(r.value.trace, r.value.rest, k + 1, n)
  }

  /** parsimUnpack() into a message that has trace `t` already. */
  function Unpack(t: Trace, b: seq<Token>): Option<Rebuilt> {
    if b == [] || !b[0].Int? then None else UnpackNodes(t, b[1..], 0, b[0].i)
  }

  // ---------------------------------------------------------------- what comes back

  function NarrowAll(reqs: seq<nat>): seq<nat> {
    if reqs == [] then [] else [Narrow(reqs[0])] + NarrowAll(reqs[1..])
  }

  /** A module without requests is dropped; later requests lose their high bits. */
  function NormalComponents(cs: seq<Component>): seq<Component> {
    if cs == [] then []
    else
      var reqs := cs[0].reqSequence;
      (if reqs == [] then [] else [cs[0].(reqSequence := [reqs[0]] + NarrowAll(reqs[1..]))]) + NormalComponents(cs[1..])
  }

  function Normal(t: Trace): Trace {
    if t == [] then [] else [Node(CStr(t[0].host), NormalComponents(t[0].modules))] + Normal(t[1..])
  }

  /** The last node with more modules, and the last module with more requests. */
  function WithModules(t: Trace, cs: seq<Component>): Trace
    requires t != []
  {
    t[|t| - 1 := t[|t| - 1].(modules := t[|t| - 1].modules + cs)]
  }

  function WithRequests(t: Trace, reqs: seq<nat>): Trace
    requires HasModule(t)
  {
    WithLastModule(t, LastModule(t).(reqSequence := LastModule(t).reqSequence + reqs))
  }

  lemma WithModulesTwice(t: Trace, cs: seq<Component>, ds: seq<Component>)
    requires t != []
    ensures WithModules(t, []) == t
    ensures WithModules(WithModules(t, cs), ds) == WithModules(t, cs + ds)
  {
    var n := t[|t| - 1];
    assert n.modules + [] == n.modules;
    assert n.modules + cs + ds == n.modules + (cs + ds);
  }

  lemma WithRequestsTwice(t: Trace, reqs: seq<nat>, more: seq<nat>)
    requires HasModule(t)
    ensures WithRequests(t, []) == t
    ensures HasModule(WithRequests(t, reqs))
    ensures WithRequests(WithRequests(t, reqs), more) == WithRequests(t, reqs + more)
  {
    var n, m := t[|t| - 1], LastModule(t);
    assert m.reqSequence + [] == m.reqSequence;
    assert n.modules[|n.modules| - 1 := m] == n.modules;
    assert m.reqSequence + reqs + more == m.reqSequence + (reqs + more);
    var u, v := WithRequests(WithRequests(t, reqs), more), WithRequests(t, reqs + more);
    assert u[|t| - 1].modules == v[|t| - 1].modules;
  }

  lemma {:induction false} UnpackLaterRequests(t: Trace, reqs: seq<nat>, rest: seq<Token>, id: int, gate: int, k: nat)
    requires HasModule(t) && k > 0
    ensures UnpackRequests(t, PackRequests(reqs) + rest, id, gate, k, k + |reqs|)
         == Some(Rebuilt(WithRequests(t, NarrowAll(reqs)), rest))
    decreases |reqs|
  {
    var b := PackRequests(reqs) + rest;
    if reqs == [] {
      assert b == rest;
      WithRequestsTwice(t, [], []);
    } else {
      assert b[0] == Request(reqs[0]) && b[1..] == PackRequests(reqs[1..]) + rest;
      WithRequestsTwice(t, [Narrow(reqs[0])], NarrowAll(reqs[1..]));
      UnpackLaterRequests(PushRequest(t, Narrow(reqs[0])), reqs[1..], rest, id, gate, k + 1);
    }
  }

  lemma ModuleFromRequests(t: Trace, c: Component)
    requires t != [] && c.reqSequence != []
    ensures var u := PushModule(t, c.moduleID, c.gateID, c.reqSequence[0]);
            HasModule(u) && WithRequests(u, NarrowAll(c.reqSequence[1..])) == WithModules(t, NormalComponents([c]))
  {
    var reqs, n := c.reqSequence, t[|t| - 1];
    var u := PushModule(t, c.moduleID, c.gateID, reqs[0]);
    var built := c.(reqSequence := [reqs[0]] + NarrowAll(reqs[1..]));
    assert LastModule(u) == Component(c.moduleID, c.gateID, [reqs[0]]);
    assert NormalComponents([c]) == [built];
    assert WithRequests(u, NarrowAll(reqs[1..]))[|t| - 1].modules == n.modules + [built];
  }

  lemma UnpackOneModule(t: Trace, c: Component, rest: seq<Token>)
    requires t != []
    ensures UnpackRequests(t, PackRequests(c.reqSequence) + rest, c.moduleID, c.gateID, 0, |c.reqSequence|)
         == Some(Rebuilt(WithModules(t, NormalComponents([c])), rest))
  {
    var reqs := c.reqSequence;
    var b := PackRequests(reqs) + rest;
    if reqs == [] {
      assert b == rest;
      assert NormalComponents([c]) == [];
      WithModulesTwice(t, [], []);
    } else {
      assert b[0] == Request(reqs[0]) && b[1..] == PackRequests(reqs[1..]) + rest;
      ModuleFromRequests(t, c);
      UnpackLaterRequests(PushModule(t, c.moduleID, c.gateID, reqs[0]), reqs[1..], rest, c.moduleID, c.gateID, 1);
    }
  }

  lemma HeadFirst(head: seq<Token>, a: seq<Token>, b: seq<Token>, rest: seq<Token>)
    ensures var all := head + a + b + rest;
            |all| >= |head| && all[..|head|] == head && all[|head|..] == a + (b + rest)
            && forall i :: 0 <= i < |head| ==> all[i] == head[i]
  {
  }

  lemma PackedModule(cs: seq<Component>, rest: seq<Token>)
    requires cs != []
    ensures var b := PackComponents(cs) + rest;
            |b| >= 3 && b[0] == Int(cs[0].moduleID) && b[1] == Int(cs[0].gateID) && b[2] == Int(|cs[0].reqSequence|)
            && b[3..] == PackRequests(cs[0].reqSequence) + (PackComponents(cs[1..]) + rest)
  {
    var c := cs[0];
    var head := [Int(c.moduleID), Int(c.gateID), Int(|c.reqSequence|)];
    HeadFirst(head, PackRequests(c.reqSequence), PackComponents(cs[1..]), rest);
  }

  lemma NormalFront(cs: seq<Component>)
    requires cs != []
    ensures NormalComponents([cs[0]]) + NormalComponents(cs[1..]) == NormalComponents(cs)
  {
    assert [cs[0]][1..] == [];
  }

  lemma {:induction false} UnpackModules(t: Trace, cs: seq<Component>, rest: seq<Token>, k: nat, n: nat)
    requires t != [] && n == k + |cs|
    ensures UnpackComponents(t, PackComponents(cs) + rest, k, n)
         == Some(Rebuilt(WithModules(t, NormalComponents(cs)), rest))
    decreases |cs|
  {
    if cs == [] {
      assert PackComponents(cs) + rest == rest;
      WithModulesTwice(t, [], []);
    } else {
      PackedModule(cs, rest);
      UnpackOneModule(t, cs[0], PackComponents(cs[1..]) + rest);
      UnpackModules(WithModules(t, NormalComponents([cs[0]])), cs[1..], rest, k + 1, n);
      WithModulesTwice(t, NormalComponents([cs[0]]), NormalComponents(cs[1..]));
      NormalFront(cs);
    }
  }

  lemma PackedNode(nodes: Trace, rest: seq<Token>)
    requires nodes != []
    ensures var b := PackNodes(nodes) + rest;
            |b| >= 2 && b[0] == Text(CStr(nodes[0].host)) && b[1] == Int(|nodes[0].modules|)
            && b[2..] == PackComponents(nodes[0].modules) + (PackNodes(nodes[1..]) + rest)
  {
    var n := nodes[0];
    HeadFirst([Text(CStr(n.host)), Int(|n.modules|)], PackComponents(n.modules), PackNodes(nodes[1..]), rest);
  }

  lemma WithModulesOfNew(t: Trace, host: string, cs: seq<Component>)
    ensures WithModules(t + [Node(host, [])], cs) == t + [Node(host, cs)]
  {
    assert [] + cs == cs;
  }

  lemma UnpackOneNode(t: Trace, nodes: Trace, rest: seq<Token>, k: nat, n: int)
    requires nodes != [] && k < n
    ensures UnpackNodes(t, PackNodes(nodes) + rest, k, n)
         == UnpackNodes(t + [Node(CStr(nodes[0].host), NormalComponents(nodes[0].modules))],
                        PackNodes(nodes[1..]) + rest, k + 1, n)
  {
    var host, cs := CStr(nodes[0].host), nodes[0].modules;
    PackedNode(nodes, rest);
    UnpackModules(t + [Node(host, [])], cs, PackNodes(nodes[1..]) + rest, 0, |cs|);
    WithModulesOfNew(t, host, NormalComponents(cs));
  }

  lemma NormalBehind(t: Trace, nodes: Trace)
    requires nodes != []
    ensures t + [Node(CStr(nodes[0].host), NormalComponents(nodes[0].modules))] + Normal(nodes[1..])
        == t + Normal(nodes)
  {
  }

  lemma {:induction false} UnpackAllNodes(t: Trace, nodes: Trace, rest: seq<Token>, k: nat, n: nat)
    requires n == k + |nodes|
    ensures UnpackNodes(t, PackNodes(nodes) + rest, k, n) == Some(Rebuilt(t + Normal(nodes), rest))
    decreases |nodes|
  {
    if nodes == [] {
      assert PackNodes(nodes) + rest == rest && t + Normal(nodes) == t;
    } else {
      var first := Node(CStr(nodes[0].host), NormalComponents(nodes[0].modules));
      UnpackOneNode(t, nodes, rest, k, n);
      UnpackAllNodes(t + [first], nodes[1..], rest, k + 1, n);
      NormalBehind(t, nodes);
    }
  }

  /** Reading back what was written consumes exactly that, and appends the trace to
      whatever the message had. */
  lemma UnpackPack(t: Trace, u: Trace, rest: seq<Token>)
    ensures Unpack(t, Pack(u) + rest) == Some(Rebuilt(t + Normal(u), rest))
  {
    assert (Pack(u) + rest)[1..] == PackNodes(u) + rest;
    UnpackAllNodes(t, u, rest, 0, |u|);
  }

  // ---------------------------------------------------------------- exactly when nothing is lost

  predicate FitsInt(r: nat) {
    r < 0x8000_0000 || 0xFFFF_FFFF_8000_0000 <= r < 0x1_0000_0000_0000_0000
  }

  predicate Packable(t: Trace) {
    forall i :: 0 <= i < |t| ==> NUL !in t[i].host && PackableModules(t[i].modules)
  }

  predicate PackableModules(cs: seq<Component>) {
    forall j :: 0 <= j < |cs| ==> cs[j].reqSequence != [] && PackableRequests(cs[j].reqSequence[1..])
  }

  predicate PackableRequests(reqs: seq<nat>) {
    forall k :: 0 <= k < |reqs| ==> FitsInt(reqs[k])
  }

  lemma {:induction false} CStrExact(s: string)
    ensures CStr(s) == s <==> NUL !in s
  {
    if s != "" && s[0] != NUL {
      CStrExact(s[1..]);
      assert s == [s[0]] + s[1..];
      assert CStr(s)[1..] == CStr(s[1..]);
    }
  }

  lemma {:induction false} NarrowExact(reqs: seq<nat>)
    ensures |NarrowAll(reqs)| == |reqs|
    ensures NarrowAll(reqs) == reqs <==> PackableRequests(reqs)
  {
    if reqs != [] {
      NarrowExact(reqs[1..]);
      assert reqs == [reqs[0]] + reqs[1..];
      assert NarrowAll(reqs)[1..] == NarrowAll(reqs[1..]);
      assert PackableRequests(reqs) <==> FitsInt(reqs[0]) && PackableRequests(reqs[1..]);
    }
  }

  lemma {:induction false} ModulesExact(cs: seq<Component>)
    ensures |NormalComponents(cs)| <= |cs|
    ensures NormalComponents(cs) == cs <==> PackableModules(cs)
  {
    if cs != [] {
      var reqs := cs[0].reqSequence;
      ModulesExact(cs[1..]);
      assert cs == [cs[0]] + cs[1..];
      assert PackableModules(cs) <==> reqs != [] && PackableRequests(reqs[1..]) && PackableModules(cs[1..]);
      if reqs != [] {
        NarrowExact(reqs[1..]);
        assert reqs == [reqs[0]] + reqs[1..];
        assert ([reqs[0]] + NarrowAll(reqs[1..]))[1..] == NarrowAll(reqs[1..]);
        assert NormalComponents(cs)[1..] == NormalComponents(cs[1..]);
      }
    }
  }

  lemma {:induction false} NormalExact(t: Trace)
    ensures |Normal(t)| == |t|
    ensures Normal(t) == t <==> Packable(t)
  {
    if t != [] {
      NormalExact(t[1..]);
      CStrExact(t[0].host);
      ModulesExact(t[0].modules);
      assert t == [t[0]] + t[1..];
      assert Normal(t)[1..] == Normal(t[1..]);
      assert Packable(t) <==> NUL !in t[0].host && PackableModules(t[0].modules) && Packable(t[1..]);
    }
  }

  /** Round trip into an empty message: exact precisely when every module has a request,
      later requests fit in an int and no host name has a NUL. */
  lemma RoundTrip(t: Trace, rest: seq<Token>)
    ensures Unpack([], Pack(t) + rest) == Some(Rebuilt(t, rest)) <==> Packable(t)
  {
    UnpackPack([], t, rest);
    NormalExact(t);
    assert [] + Normal(t) == Normal(t);
  }
}
