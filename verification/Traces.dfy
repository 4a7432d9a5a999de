/** The trace of a message: for each host the modules it went through, for each module
    the gate back and the request numbers; and the test that links a sub-request to its parent. */
module Traces {
  import opened Sequences
  import opened Text

  datatype Component = Component(moduleID: int, gateID: int, reqSequence: seq<nat>)
  datatype Node = Node(host: string, modules: seq<Component>)
  type Trace = seq<Node>

  // ---------------------------------------------------------------- printing

  function RequestTexts(reqs: seq<nat>): seq<string> {
    seq(|reqs|, i requires 0 <= i < |reqs| => Dec(reqs[i]))
  }

  function ComponentText(c: Component): string {
    DecInt(c.moduleID) + [','] + (DecInt(c.gateID) + [':'] + Join(RequestTexts(c.reqSequence), '.'))
  }

  function ComponentTexts(cs: seq<Component>): seq<string> {
    seq(|cs|, i requires 0 <= i < |cs| => ComponentText(cs[i]))
  }

  function NodeText(n: Node): string {
    n.host + ['@'] + Join(ComponentTexts(n.modules), '/')
  }

  function NodeTexts(t: Trace): seq<string> {
    seq(|t|, i requires 0 <= i < |t| => NodeText(t[i]))
  }

  /** traceToString(). */
  function TraceText(t: Trace): string {
    Join(NodeTexts(t), '|')
  }

  /** The name starts with the text of a whole node and the separator of nodes. */
  predicate Imitates(host: string, n: Node) {
    var text := NodeText(n);
    |text| < |host| && host[..|text|] == text && host[|text|] == '|'
  }

  ghost predicate Honest(host: string) {
    forall n: Node :: !Imitates(host, n)
  }

  ghost predicate HonestHosts(t: Trace) {
    forall i :: 0 <= i < |t| ==> Honest(t[i].host)
  }

  /** Any name without '|' is honest, and any without '@'. */
  lemma PlainIsHonest(host: string)
    requires '|' !in host || '@' !in host
    ensures Honest(host)
  {
    forall n: Node ensures !Imitates(host, n) {
      ImitatorsHaveBoth(host, n);
    }
  }

  lemma ImitatorsHaveBoth(host: string, n: Node)
    ensures Imitates(host, n) ==> '|' in host && '@' in host
  {
    if Imitates(host, n) {
      var text := NodeText(n);
      assert text[|n.host|] == '@';
      assert host[|n.host|] == host[..|text|][|n.host|];
    }
  }

  lemma RequestTextsAreParts(reqs: seq<nat>)
    ensures Parts(RequestTexts(reqs), '.')
    ensures forall c :: !('0' <= c <= '9') && c != '.' ==> c !in Join(RequestTexts(reqs), '.')
  {
    forall c | !('0' <= c <= '9') && c != '.' ensures c !in Join(RequestTexts(reqs), '.') {
      JoinLacks(RequestTexts(reqs), '.', c);
    }
  }

  lemma {:induction false} RequestTextsInjective(reqs: seq<nat>, reqs': seq<nat>)
    requires Join(RequestTexts(reqs), '.') == Join(RequestTexts(reqs'), '.')
    ensures reqs == reqs'
  {
    RequestTextsAreParts(reqs);
    RequestTextsAreParts(reqs');
    JoinInjective(RequestTexts(reqs), RequestTexts(reqs'), '.');
    assert |RequestTexts(reqs)| == |RequestTexts(reqs')|;
    forall i | 0 <= i < |reqs| ensures reqs[i] == reqs'[i] {
      assert RequestTexts(reqs)[i] == RequestTexts(reqs')[i];
      DecInjective(reqs[i], reqs'[i]);
    }
  }

  lemma ComponentTextLacks(c: Component, x: char)
    requires x == '/' || x == '|' || x == '@'
    ensures x !in ComponentText(c) && ComponentText(c) != ""
  {
    RequestTextsAreParts(c.reqSequence);
  }

  lemma ComponentTextInjective(c: Component, d: Component)
    requires ComponentText(c) == ComponentText(d)
    ensures c == d
  {
    var rc, rd := Join(RequestTexts(c.reqSequence), '.'), Join(RequestTexts(d.reqSequence), '.');
    SplitFirst(DecInt(c.moduleID), DecInt(c.gateID) + [':'] + rc,
               DecInt(d.moduleID), DecInt(d.gateID) + [':'] + rd, ',');
    SplitFirst(DecInt(c.gateID), rc, DecInt(d.gateID), rd, ':');
    DecIntInjective(c.moduleID, d.moduleID);
    DecIntInjective(c.gateID, d.gateID);
    RequestTextsInjective(c.reqSequence, d.reqSequence);
  }

  lemma ModulesTextLacks(cs: seq<Component>, x: char)
    requires x == '|' || x == '@'
    ensures x !in Join(ComponentTexts(cs), '/')
  {
    forall i | 0 <= i < |cs| ensures x !in ComponentTexts(cs)[i] {
      ComponentTextLacks(cs[i], x);
    }
    JoinLacks(ComponentTexts(cs), '/', x);
  }

  lemma NodeTextInjective(m: Node, n: Node)
    requires NodeText(m) == NodeText(n)
    ensures m == n
  {
    ModulesTextLacks(m.modules, '@');
    ModulesTextLacks(n.modules, '@');
    SplitLast(m.host, Join(ComponentTexts(m.modules), '/'), n.host, Join(ComponentTexts(n.modules), '/'), '@');
    forall i | 0 <= i < |m.modules| ensures ComponentTexts(m.modules)[i] != "" && '/' !in ComponentTexts(m.modules)[i] {
      ComponentTextLacks(m.modules[i], '/');
    }
    forall i | 0 <= i < |n.modules| ensures ComponentTexts(n.modules)[i] != "" && '/' !in ComponentTexts(n.modules)[i] {
      ComponentTextLacks(n.modules[i], '/');
    }
    JoinInjective(ComponentTexts(m.modules), ComponentTexts(n.modules), '/');
    assert |ComponentTexts(m.modules)| == |ComponentTexts(n.modules)|;
    forall i | 0 <= i < |m.modules| ensures m.modules[i] == n.modules[i] {
      assert ComponentTexts(m.modules)[i] == ComponentTexts(n.modules)[i];
      ComponentTextInjective(m.modules[i], n.modules[i]);
    }
  }

  /** The first node's text, and what follows it. */
  lemma TextOfFirst(t: Trace)
    requires t != []
    ensures TraceText(t) == NodeText(t[0]) + if |t| == 1 then "" else ['|'] + TraceText(t[1..])
  {
    assert NodeTexts(t)[0] == NodeText(t[0]) && NodeTexts(t)[1..] == NodeTexts(t[1..]);
    assert NodeText(t[0]) + "" == NodeText(t[0]);
    if |t| > 1 { Associate(NodeText(t[0]), ['|'], TraceText(t[1..])); }
  }

  lemma BarsAreInHost(n: Node, k: nat)
    requires k < |NodeText(n)| && NodeText(n)[k] == '|'
    ensures k < |n.host|
  {
    var modules := Join(ComponentTexts(n.modules), '/');
    ModulesTextLacks(n.modules, '|');
    assert NodeText(n)[|n.host|] == '@';
    forall j | |n.host| < j < |NodeText(n)| ensures NodeText(n)[j] != '|' {
      assert NodeText(n)[j] == modules[j - |n.host| - 1];
    }
  }

  /** Where one text starts with two node texts, the longer node has a host that imitates
      the other. */
  lemma LongerImitates(m: Node, n: Node, text: string)
    requires |NodeText(m)| < |NodeText(n)| <= |text|
    requires text[..|NodeText(m)|] == NodeText(m) && text[..|NodeText(n)|] == NodeText(n) && text[|NodeText(m)|] == '|'
    ensures Imitates(n.host, m)
  {
    var a, b := NodeText(m), NodeText(n);
    assert b[|a|] == text[..|b|][|a|] == '|';
    BarsAreInHost(n, |a|);
    assert n.host == b[..|n.host|];
    assert n.host[..|a|] == text[..|b|][..|a|] == text[..|a|];
  }

  lemma FirstNodesAgree(t: Trace, u: Trace)
    requires t != [] && u != [] && Honest(t[0].host) && Honest(u[0].host) && TraceText(t) == TraceText(u)
    ensures t[0] == u[0]
  {
    TextOfFirst(t);
    TextOfFirst(u);
    var text, a, b := TraceText(t), NodeText(t[0]), NodeText(u[0]);
    assert text[..|a|] == a && text[..|b|] == b;
    if |a| < |b| {
      LongerImitates(t[0], u[0], text);
    } else if |b| < |a| {
      LongerImitates(u[0], t[0], text);
    } else {
      NodeTextInjective(t[0], u[0]);
    }
  }

  /** Two traces that print alike are the same: every node, module, gate and request. */
  lemma {:induction false} TraceTextInjective(t: Trace, u: Trace)
    requires HonestHosts(t) && HonestHosts(u) && TraceText(t) == TraceText(u)
    ensures t == u
    decreases |t|
  {
    if t != [] { TextOfFirst(t); }
    if u != [] { TextOfFirst(u); }
    if t != [] && u != [] {
      FirstNodesAgree(t, u);
      var a := NodeText(t[0]);
      assert TraceText(t)[|a|..] == TraceText(u)[|a|..];
      if |t| > 1 && |u| > 1 {
        assert TraceText(t[1..]) == TraceText(t)[|a|..][1..];
        assert TraceText(u[1..]) == TraceText(u)[|a|..][1..];
        TraceTextInjective(t[1..], u[1..]);
      }
      assert t == [t[0]] + t[1..] && u == [u[0]] + u[1..];
    }
  }

  // The format, level by level, where each separator is.

  lemma TextOfTwoRequests(r: nat, s: nat)
    ensures Join(RequestTexts([r, s]), '.') == Dec(r) + ['.'] + Dec(s)
    ensures Join(RequestTexts([r]), '.') == Dec(r)
  {
    assert RequestTexts([r, s]) == [Dec(r), Dec(s)] && [Dec(r), Dec(s)][1..] == [Dec(s)];
    assert RequestTexts([r]) == [Dec(r)];
  }

  lemma TextOfTwoModules(c: Component, d: Component, cr: string, dr: string)
    requires cr == Join(RequestTexts(c.reqSequence), '.') && dr == Join(RequestTexts(d.reqSequence), '.')
    ensures Join(ComponentTexts([c, d]), '/')
         == (DecInt(c.moduleID) + [','] + (DecInt(c.gateID) + [':'] + cr)) + ['/']
            + (DecInt(d.moduleID) + [','] + (DecInt(d.gateID) + [':'] + dr))
  {
    assert ComponentTexts([c, d]) == [ComponentText(c), ComponentText(d)];
    assert [ComponentText(c), ComponentText(d)][1..] == [ComponentText(d)];
  }

  lemma TextOfTwoNodes(m: Node, n: Node, ms: string, ns: string)
    requires ms == Join(ComponentTexts(m.modules), '/') && ns == Join(ComponentTexts(n.modules), '/')
    ensures TraceText([m, n]) == (m.host + ['@'] + ms) + ['|'] + (n.host + ['@'] + ns)
  {
    assert NodeTexts([m, n]) == [NodeText(m)] + [NodeText(n)];
    JoinSnoc([NodeText(m)], NodeText(n), '|');
    assert Join([NodeText(m)], '|') == NodeText(m);
  }

  // ---------------------------------------------------------------- changing a trace

  predicate HasModule(t: Trace) {
    t != [] && t[|t| - 1].modules != []
  }

  function LastModule(t: Trace): Component
    requires HasModule(t)
  {
    var n := t[|t| - 1];
    n.modules[|n.modules| - 1]
  }

  function WithLastModule(t: Trace, c: Component): Trace
    requires HasModule(t)
  {
    var n := t[|t| - 1];
    t[|t| - 1 := n.(modules := n.modules[|n.modules| - 1 := c])]
  }

  function PushModule(t: Trace, module_: int, gate: int, request: nat): Trace
    requires t != []
  {
    var n := t[|t| - 1];
    t[|t| - 1 := n.(modules := n.modules + [Component(module_, gate, [request])])]
  }

  function PopModule(t: Trace): Trace
    requires HasModule(t)
  {
    var n := t[|t| - 1];
    t[|t| - 1 := n.(modules := n.modules[..|n.modules| - 1])]
  }

  function PushRequest(t: Trace, request: nat): Trace
    requires HasModule(t)
  {
    WithLastModule(t, LastModule(t).(reqSequence := LastModule(t).reqSequence + [request]))
  }

  function PopRequest(t: Trace): Trace
    requires HasModule(t) && LastModule(t).reqSequence != []
  {
    var reqs := LastModule(t).reqSequence;
    WithLastModule(t, LastModule(t).(reqSequence := reqs[..|reqs| - 1]))
  }

  /** An int stored as a reqNum_t (unsigned long). */
  function AsRequest(i: int): (r: nat)
    requires -0x8000_0000 <= i < 0x8000_0000
  {
    if i < 0 then i + 0x1_0000_0000_0000_0000 else i
  }

  /** A reqNum_t handed out as an int: its low 32 bits, with their sign. */
  function AsInt(r: nat): (i: int)
    ensures -0x8000_0000 <= i < 0x8000_0000
  {
    var low := r % 0x1_0000_0000;
    if low < 0x8000_0000 then low else low - 0x1_0000_0000
  }

  predicate HasRequest(t: Trace) {
    HasModule(t) && LastModule(t).reqSequence != []
  }

  function LastRequest(t: Trace): nat
    requires HasRequest(t)
  {
    LastModule(t).reqSequence[|LastModule(t).reqSequence| - 1]
  }

  // ---------------------------------------------------------------- fitWithParent

  /** fitWithParent(): drop what follows the last dot, provided it is behind the last
      colon, and compare with the parent. */
  predicate FitWithParent(child: Trace, parent: Trace) {
    var childTrace := TraceText(child);
    var dot, twoDots := FindLast(childTrace, '.'), FindLast(childTrace, ':');
    dot >= 0 && twoDots >= 0 && dot > twoDots && childTrace[..dot] == TraceText(parent)
  }

  /** `child` is `parent` with one more request on its last module, which has some already. */
  predicate IsPiece(child: Trace, parent: Trace, request: nat) {
    HasModule(parent) && LastModule(parent).reqSequence != [] && child == PushRequest(parent, request)
  }

  /** Everything up to and with the last colon. */
  function Head(t: Trace): string
    requires HasModule(t)
  {
    var n := t[|t| - 1];
    Before(NodeTexts(t), '|') + n.host + ['@'] + Before(ComponentTexts(n.modules), '/')
      + DecInt(LastModule(t).moduleID) + [','] + DecInt(LastModule(t).gateID)
  }

  lemma RegroupComponent(mid: string, id: string, gate: string, req: string)
    ensures mid + (id + [','] + (gate + [':'] + req)) == mid + id + [','] + gate + [':'] + req
  {
  }

  lemma RegroupNode(pre: string, host: string, mid: string, id: string, gate: string, req: string)
    ensures pre + (host + ['@'] + (mid + id + [','] + gate + [':'] + req))
         == pre + host + ['@'] + mid + id + [','] + gate + [':'] + req
  {
  }

  lemma Reopen(text: string, head: string, pre: string, host: string, modules: string,
               mid: string, id: string, gate: string, req: string)
    requires text == pre + (host + ['@'] + modules) && modules == mid + id + [','] + gate + [':'] + req
    requires head == pre + host + ['@'] + mid + id + [','] + gate
    ensures text == head + [':'] + req
  {
    RegroupNode(pre, host, mid, id, gate, req);
  }

  /** The text of the last node, opened at its last module. */
  lemma NodeTextFromHead(n: Node)
    requires n.modules != []
    ensures var c := n.modules[|n.modules| - 1];
            Join(ComponentTexts(n.modules), '/')
            == Before(ComponentTexts(n.modules), '/') + DecInt(c.moduleID) + [','] + DecInt(c.gateID)
               + [':'] + Join(RequestTexts(c.reqSequence), '.')
  {
    var c := n.modules[|n.modules| - 1];
    JoinEndsInLast(ComponentTexts(n.modules), '/');
    assert ComponentTexts(n.modules)[|n.modules| - 1] == ComponentText(c);
    RegroupComponent(Before(ComponentTexts(n.modules), '/'), DecInt(c.moduleID), DecInt(c.gateID),
                 Join(RequestTexts(c.reqSequence), '.'));
  }

  lemma TextEndsInLastNode(t: Trace)
    requires t != []
    ensures var n := t[|t| - 1];
            TraceText(t) == Before(NodeTexts(t), '|') + (n.host + ['@'] + Join(ComponentTexts(n.modules), '/'))
  {
    JoinEndsInLast(NodeTexts(t), '|');
    assert NodeTexts(t)[|t| - 1] == NodeText(t[|t| - 1]);
  }

  lemma TextFromHead(t: Trace)
    requires HasModule(t)
    ensures TraceText(t) == Head(t) + [':'] + Join(RequestTexts(LastModule(t).reqSequence), '.')
  {
    var n := t[|t| - 1];
    var c := LastModule(t);
    TextEndsInLastNode(t);
    NodeTextFromHead(n);
    Reopen(TraceText(t), Head(t), Before(NodeTexts(t), '|'), n.host, Join(ComponentTexts(n.modules), '/'),
           Before(ComponentTexts(n.modules), '/'), DecInt(c.moduleID), DecInt(c.gateID),
           Join(RequestTexts(c.reqSequence), '.'));
  }

  lemma HeadKeepsBehindLast(t: Trace, reqs: seq<nat>)
    requires HasModule(t)
    ensures Head(WithLastModule(t, LastModule(t).(reqSequence := reqs))) == Head(t)
  {
    var u := WithLastModule(t, LastModule(t).(reqSequence := reqs));
    var n, m := t[|t| - 1], u[|u| - 1];
    assert NodeTexts(u)[..|t| - 1] == NodeTexts(t)[..|t| - 1];
    assert ComponentTexts(m.modules)[..|n.modules| - 1] == ComponentTexts(n.modules)[..|n.modules| - 1];
  }

  lemma RequestTextsPush(reqs: seq<nat>, request: nat)
    requires reqs != []
    ensures Join(RequestTexts(reqs + [request]), '.') == Join(RequestTexts(reqs), '.') + ['.'] + Dec(request)
  {
    assert RequestTexts(reqs + [request]) == RequestTexts(reqs) + [Dec(request)];
    JoinSnoc(RequestTexts(reqs), Dec(request), '.');
  }

  lemma RegroupPush(a: string, b: string, d: string)
    ensures a + [':'] + (b + ['.'] + d) == (a + [':'] + b) + ['.'] + d
  {
  }

  lemma PushRequestText(t: Trace, request: nat)
    requires HasModule(t) && LastModule(t).reqSequence != []
    ensures TraceText(PushRequest(t, request)) == TraceText(t) + ['.'] + Dec(request)
  {
    var reqs := LastModule(t).reqSequence;
    var u := PushRequest(t, request);
    assert LastModule(u).reqSequence == reqs + [request];
    TextFromHead(t);
    TextFromHead(u);
    HeadKeepsBehindLast(t, reqs + [request]);
    RequestTextsPush(reqs, request);
    RegroupPush(Head(t), Join(RequestTexts(reqs), '.'), Dec(request));
  }

  lemma CutAtDot(p: string, d: string)
    requires ':' in p && '.' !in d && ':' !in d
    ensures var text := p + ['.'] + d;
            FindLast(text, '.') == |p| && 0 <= FindLast(text, ':') < |p| && text[..|p|] == p
  {
    FindLastIs(p, d, '.');
    FindLastBefore(p, ['.'] + d, ':');
    assert p + ['.'] + d == p + (['.'] + d);
  }

  lemma PieceFits(child: Trace, parent: Trace, request: nat)
    requires IsPiece(child, parent, request)
    ensures FitWithParent(child, parent)
  {
    PushRequestText(parent, request);
    TextFromHead(parent);
    assert TraceText(parent)[|Head(parent)|] == ':';
    CutAtDot(TraceText(parent), Dec(request));
  }

  /** The part of the child before its last request. */
  lemma ChildWithoutLast(child: Trace) returns (rest: Trace, request: nat)
    requires HasModule(child) && |LastModule(child).reqSequence| >= 2
    ensures HasModule(rest) && LastModule(rest).reqSequence != [] && child == PushRequest(rest, request)
    ensures HonestHosts(child) ==> HonestHosts(rest)
  {
    var reqs := LastModule(child).reqSequence;
    rest, request := PopRequest(child), reqs[|reqs| - 1];
    assert LastModule(rest).reqSequence + [request] == reqs;
    assert LastModule(PushRequest(rest, request)) == LastModule(child);
    assert PushRequest(rest, request)[|child| - 1].modules == child[|child| - 1].modules;
    assert PushRequest(rest, request) == child;
  }

  lemma ShortTailHasNoDot(reqs: seq<nat>)
    ensures |reqs| <= 1 ==> '.' !in Join(RequestTexts(reqs), '.')
  {
  }

  lemma DotBehindColon(child: Trace)
    requires HasModule(child)
    requires FindLast(TraceText(child), '.') > FindLast(TraceText(child), ':')
    ensures |LastModule(child).reqSequence| >= 2
  {
    var reqs := LastModule(child).reqSequence;
    var tail := Join(RequestTexts(reqs), '.');
    var text := TraceText(child);
    TextFromHead(child);
    RequestTextsAreParts(reqs);
    FindLastIs(Head(child), tail, ':');
    var dot := FindLast(text, '.');
    assert text == (Head(child) + [':']) + tail;
    assert text[dot] == tail[dot - |Head(child)| - 1];
    assert '.' in tail;
    ShortTailHasNoDot(reqs);
  }

  lemma FittingIsPiece(child: Trace, parent: Trace)
    requires HasModule(child) && HonestHosts(child) && HonestHosts(parent) && FitWithParent(child, parent)
    ensures exists request :: IsPiece(child, parent, request)
  {
    DotBehindColon(child);
    var rest, request := ChildWithoutLast(child);
    PushRequestText(rest, request);
    FindLastIs(TraceText(rest), Dec(request), '.');
    assert TraceText(child)[..|TraceText(rest)|] == TraceText(rest);
    TraceTextInjective(rest, parent);
    assert IsPiece(child, parent, request);
  }

  /** fitWithParent() recognises exactly the pieces of the parent. */
  lemma FitsExactly(child: Trace, parent: Trace)
    requires HasModule(child) && HonestHosts(child) && HonestHosts(parent)
    ensures FitWithParent(child, parent) <==> exists request :: IsPiece(child, parent, request)
  {
    if FitWithParent(child, parent) {
      FittingIsPiece(child, parent);
    }
    if request :| IsPiece(child, parent, request) {
      PieceFits(child, parent, request);
    }
  }
}
