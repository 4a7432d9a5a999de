/** icancloud_Message: the trace as a field that is pushed, popped, printed, packed and
    rebuilt in place. The printing and packing loops are one method per nesting level. */
module Messages {
  import opened Wrappers
  import opened Sequences
  import opened Text
  import opened Traces
  import Packing

  class Message {
    var trace: Trace

    constructor ()
      ensures trace == []
    {
      trace := [];
    }

    predicate IsTraceEmpty()
      reads this
    {
      trace == []
    }

    method AddNodeToTrace(node: string)
      modifies this
      ensures trace == old(trace) + [Node(node, [])]
    {
      trace := trace + [Node(node, [])];
    }

    /** The empty trace stops the simulation in the source; so in all of these. */
    method AddModuleToTrace(module_: int, gate: int, currentRequest: nat)
      requires trace != []
      modifies this
      ensures trace == PushModule(old(trace), module_, gate, currentRequest)
    {
      var last := |trace| - 1;
      var currentModule := Component(module_, gate, [currentRequest]);
      trace := trace[last := trace[last].(modules := trace[last].modules + [currentModule])];
    }

    method RemoveLastModuleFromTrace()
      requires HasModule(trace)
      modifies this
      ensures trace == PopModule(old(trace))
    {
      var last := |trace| - 1;
      trace := trace[last := trace[last].(modules := trace[last].modules[..|trace[last].modules| - 1])];
    }

    method AddRequestToTrace(request: int)
      requires HasModule(trace) && -0x8000_0000 <= request < 0x8000_0000
      modifies this
      ensures trace == PushRequest(old(trace), AsRequest(request))
    {
      var last := |trace| - 1;
      var modules := trace[last].modules;
      var c := modules[|modules| - 1];
      c := c.(reqSequence := c.reqSequence + [AsRequest(request)]);
      trace := trace[last := trace[last].(modules := modules[|modules| - 1 := c])];
    }

    method GetLastGateId() returns (gate: int)
      requires HasModule(trace)
      ensures gate == LastModule(trace).gateID
    {
      var modules := trace[|trace| - 1].modules;
      gate := modules[|modules| - 1].gateID;
    }

    method GetCurrentRequest() returns (request: int)
      requires HasRequest(trace)
      ensures request == AsInt(LastRequest(trace))
    {
      var modules := trace[|trace| - 1].modules;
      var reqs := modules[|modules| - 1].reqSequence;
      request := AsInt(reqs[|reqs| - 1]);
    }

    /** addNodeTrace() copies module by module and request by request. */
    method AddNodeTrace(host: string, nodeTrace: seq<Component>)
      modifies this
      ensures trace == old(trace) + [Node(host, nodeTrace)]
    {
      var currentNodeTrace: seq<Component> := [];
      var i := 0;
      while i < |nodeTrace|
        invariant 0 <= i <= |nodeTrace| && currentNodeTrace == nodeTrace[..i]
      {
        var reqs: seq<nat> := [];
        var k := 0;
        while k < |nodeTrace[i].reqSequence|
          invariant 0 <= k <= |nodeTrace[i].reqSequence| && reqs == nodeTrace[i].reqSequence[..k]
        {
          reqs := reqs + [nodeTrace[i].reqSequence[k]];
          k := k + 1;
        }
        assert nodeTrace[i].reqSequence[..k] == nodeTrace[i].reqSequence;
        assert nodeTrace[..i + 1] == nodeTrace[..i] + [nodeTrace[i]];
        currentNodeTrace := currentNodeTrace + [Component(nodeTrace[i].moduleID, nodeTrace[i].gateID, reqs)];
        i := i + 1;
      }
      assert nodeTrace[..i] == nodeTrace;
      trace := trace + [Node(host, currentNodeTrace)];
    }

    method Dup() returns (copy: Message)
      ensures fresh(copy) && copy.trace == trace
    {
      copy := new Message();
      var i := 0;
      while i < |trace|
        invariant 0 <= i <= |trace| && copy.trace == trace[..i]
      {
        copy.AddNodeTrace(trace[i].host, trace[i].modules);
        i := i + 1;
      }
    }

    // -------------------------------------------------------------- printing

    static method PrintRequests(line: string, reqs: seq<nat>) returns (out: string)
      ensures out == line + Join(RequestTexts(reqs), '.')
    {
      out := line;
      var k := 0;
      while k < |reqs|
        invariant 0 <= k <= |reqs| && out == line + Join(RequestTexts(reqs[..k]), '.')
      {
        assert RequestTexts(reqs[..k + 1]) == RequestTexts(reqs[..k]) + [Dec(reqs[k])];
        JoinStep(line, RequestTexts(reqs[..k]), Dec(reqs[k]), '.');
        if k != 0 {
          out := out + ['.'];
        }
        out := out + Dec(reqs[k]);
        k := k + 1;
      }
      assert reqs[..k] == reqs;
    }

    static lemma ModulesSnoc(line: string, cs: seq<Component>, j: nat)
      requires j < |cs|
      ensures var before := line + Join(ComponentTexts(cs[..j]), '/');
              (if j != 0 then before + ['/'] else before) + ComponentText(cs[j])
              == line + Join(ComponentTexts(cs[..j + 1]), '/')
    {
      TextsSnoc(cs, j);
      JoinStep(line, ComponentTexts(cs[..j]), ComponentText(cs[j]), '/');
    }

    static lemma TextsSnoc(cs: seq<Component>, j: nat)
      requires j < |cs|
      ensures ComponentTexts(cs[..j + 1]) == ComponentTexts(cs[..j]) + [ComponentText(cs[j])]
      ensures ComponentTexts(cs[..j]) == [] <==> j == 0
    {
    }

    static lemma ModuleLine(line: string, m: string, g: string, reqs: string)
      ensures line + m + [','] + g + [':'] + reqs == line + (m + [','] + (g + [':'] + reqs))
    {
    }

    static method PrintModule(line: string, c: Component) returns (out: string)
      ensures out == line + ComponentText(c)
    {
      out := line + DecInt(c.moduleID) + [','];
      out := out + DecInt(c.gateID) + [':'];
      out := PrintRequests(out, c.reqSequence);
      ModuleLine(line, DecInt(c.moduleID), DecInt(c.gateID), Join(RequestTexts(c.reqSequence), '.'));
    }

    static method PrintModules(line: string, cs: seq<Component>) returns (out: string)
      ensures out == line + Join(ComponentTexts(cs), '/')
    {
      out := line;
      var j := 0;
      while j < |cs|
        invariant 0 <= j <= |cs| && out == line + Join(ComponentTexts(cs[..j]), '/')
      {
        ModulesSnoc(line, cs, j);
        if j != 0 {
          out := out + ['/'];
        }
        out := PrintModule(out, cs[j]);
        j := j + 1;
      }
      assert cs[..j] == cs;
    }

    static lemma NodesSnoc(t: Trace, i: nat)
      requires i < |t|
      ensures (if i != 0 then TraceText(t[..i]) + ['|'] else TraceText(t[..i])) + NodeText(t[i])
           == TraceText(t[..i + 1])
    {
      assert NodeTexts(t[..i + 1]) == NodeTexts(t[..i]) + [NodeText(t[i])];
      JoinSnoc(NodeTexts(t[..i]), NodeText(t[i]), '|');
    }

    static method PrintNode(line: string, n: Node) returns (out: string)
      ensures out == line + NodeText(n)
    {
      out := line + n.host + ['@'];
      out := PrintModules(out, n.modules);
      Associate(line, n.host, ['@']);
      Associate(line, n.host + ['@'], Join(ComponentTexts(n.modules), '/'));
    }

    method TraceToString() returns (out: string)
      ensures out == TraceText(trace)
    {
      out := "";
      var i := 0;
      while i < |trace|
        invariant 0 <= i <= |trace| && out == TraceText(trace[..i])
      {
        NodesSnoc(trace, i);
        if i != 0 {
          out := out + ['|'];
        }
        out := PrintNode(out, trace[i]);
        i := i + 1;
      }
      assert trace[..i] == trace;
    }

    method FitWithParent(parent: Message) returns (fit: bool)
      ensures fit == Traces.FitWithParent(trace, parent.trace)
    {
      fit := false;
      var childTrace := TraceToString();
      var parentTrace := parent.TraceToString();
      var dot, twoDots := FindLast(childTrace, '.'), FindLast(childTrace, ':');
      if dot != -1 && twoDots != -1 {
        if dot > twoDots {
          childTrace := childTrace[..dot];
          if childTrace == parentTrace {
            fit := true;
          }
        }
      }
    }

    // -------------------------------------------------------------- packing

    static method PackRequests(b: seq<Packing.Token>, reqs: seq<nat>) returns (out: seq<Packing.Token>)
      ensures out == b + Packing.PackRequests(reqs)
    {
      out := b;
      var k := 0;
      while k < |reqs|
        invariant 0 <= k <= |reqs| && out + Packing.PackRequests(reqs[k..]) == b + Packing.PackRequests(reqs)
      {
        out := out + [Packing.Request(reqs[k])];
        k := k + 1;
      }
    }

    static method PackModules(b: seq<Packing.Token>, cs: seq<Component>) returns (out: seq<Packing.Token>)
      ensures out == b + Packing.PackComponents(cs)
    {
      out := b;
      var j := 0;
      while j < |cs|
        invariant 0 <= j <= |cs| && out + Packing.PackComponents(cs[j..]) == b + Packing.PackComponents(cs)
      {
        ghost var before := out;
        var c := cs[j];
        out := out + [Packing.Int(c.moduleID), Packing.Int(c.gateID), Packing.Int(|c.reqSequence|)];
        out := PackRequests(out, c.reqSequence);
        assert cs[j..][1..] == cs[j + 1..];
        assert before + Packing.PackComponents(cs[j..]) == out + Packing.PackComponents(cs[j + 1..]);
        j := j + 1;
      }
    }

    static lemma PackedAlong(out: seq<Packing.Token>, t: Trace, i: nat)
      requires i < |t|
      ensures var head := [Packing.Text(Packing.CStr(t[i].host)), Packing.Int(|t[i].modules|)];
              out + head + Packing.PackComponents(t[i].modules) + Packing.PackNodes(t[i + 1..])
              == out + Packing.PackNodes(t[i..])
    {
      assert t[i..][1..] == t[i + 1..];
    }

    method ParsimPack(b: seq<Packing.Token>) returns (out: seq<Packing.Token>)
      ensures out == b + Packing.Pack(trace)
    {
      out := b + [Packing.Int(|trace|)];
      var i := 0;
      while i < |trace|
        invariant 0 <= i <= |trace| && out + Packing.PackNodes(trace[i..])
                                          == b + [Packing.Int(|trace|)] + Packing.PackNodes(trace)
      {
        PackedAlong(out, trace, i);
        out := out + [Packing.Text(Packing.CStr(trace[i].host)), Packing.Int(|trace[i].modules|)];
        out := PackModules(out, trace[i].modules);
        i := i + 1;
      }
      Associate(b, [Packing.Int(|trace|)], Packing.PackNodes(trace));
    }

    /** `ok` is false where the buffer does not hold what is asked for; the rest of the
        message is then unspecified. */
    method UnpackRequests(b: seq<Packing.Token>, id: int, gate: int, n: int)
      returns (ok: bool, rest: seq<Packing.Token>)
      requires trace != []
      modifies this
      ensures ok == Packing.UnpackRequests(old(trace), b, id, gate, 0, n).Some?
      ensures ok ==> Packing.UnpackRequests(old(trace), b, id, gate, 0, n) == Some(Packing.Rebuilt(trace, rest))
      ensures trace != []
    {
      ok, rest := true, b;
      var k := 0;
      while k < n
        invariant 0 <= k && trace != [] && (k > 0 ==> HasModule(trace)) && (k == 0 || k <= n)
        invariant Packing.UnpackRequests(trace, rest, id, gate, k, n)
               == Packing.UnpackRequests(old(trace), b, id, gate, 0, n)
      {
        if rest == [] || !rest[0].Request? {
          return false, rest;
        }
        var req := rest[0].n;
        rest := rest[1..];
        if k == 0 {
          AddModuleToTrace(id, gate, req);
        } else {
          AddRequestToTrace(AsInt(req));
        }
        k := k + 1;
      }
    }

    method UnpackModules(b: seq<Packing.Token>, n: int) returns (ok: bool, rest: seq<Packing.Token>)
      requires trace != []
      modifies this
      ensures ok == Packing.UnpackComponents(old(trace), b, 0, n).Some?
      ensures ok ==> Packing.UnpackComponents(old(trace), b, 0, n) == Some(Packing.Rebuilt(trace, rest))
    {
      ok, rest := true, b;
      var j := 0;
      while j < n
        invariant 0 <= j && trace != [] && (j == 0 || j <= n)
        invariant Packing.UnpackComponents(trace, rest, j, n) == Packing.UnpackComponents(old(trace), b, 0, n)
      {
        if |rest| < 3 || !rest[0].Int? || !rest[1].Int? || !rest[2].Int? {
          return false, rest;
        }
        ok, rest := UnpackRequests(rest[3..], rest[0].i, rest[1].i, rest[2].i);
        if !ok {
          return;
        }
        j := j + 1;
      }
    }

    method ParsimUnpack(b: seq<Packing.Token>) returns (ok: bool, rest: seq<Packing.Token>)
      modifies this
      ensures ok == Packing.Unpack(old(trace), b).Some?
      ensures ok ==> Packing.Unpack(old(trace), b) == Some(Packing.Rebuilt(trace, rest))
    {
      ok, rest := true, b;
      if b == [] || !b[0].Int? {
        return false, b;
      }
      var numNodes := b[0].i;
      rest := b[1..];
      var i := 0;
      while i < numNodes
        invariant 0 <= i && (i == 0 || i <= numNodes)
        invariant Packing.UnpackNodes(trace, rest, i, numNodes) == Packing.Unpack(old(trace), b)
      {
        if |rest| < 2 || !rest[0].Text? || !rest[1].Int? {
          return false, rest;
        }
        var numModules := rest[1].i;
        AddNodeToTrace(rest[0].s);
        ok, rest := UnpackModules(rest[2..], numModules);
        if !ok {
          return;
        }
        i := i + 1;
      }
    }
  }
}
