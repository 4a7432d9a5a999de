/** Why the conditions on host names and on the last node are there: each is needed, for
    every trace that fails it. */
module TraceLimits {
  import opened Sequences
  import opened Text
  import opened Traces

  // ---------------------------------------------------------------- names that imitate nodes

  /** What the name has behind the node it imitates. */
  function Behind(host: string, n: Node): string
    requires Imitates(host, n)
  {
    host[|NodeText(n)| + 1..]
  }

  /** The nodes that node i of the trace passes itself off as. */
  function Unfolded(t: Trace, i: nat, n: Node): Trace
    requires i < |t| && Imitates(t[i].host, n)
  {
    t[..i] + [n, Node(Behind(t[i].host, n), t[i].modules)] + t[i + 1..]
  }

  lemma {:induction false} JoinSplits(a: seq<string>, x: string, y: string, b: seq<string>, sep: char)
    ensures Join(a + [x, y] + b, sep) == Join(a + [x + [sep] + y] + b, sep)
  {
    var whole := a + [x + [sep] + y] + b;
    var split := a + [x, y] + b;
    if a == [] {
      assert split == [x] + ([y] + b) && whole == [x + [sep] + y] + b;
      assert split[1..] == [y] + b && ([y] + b)[1..] == b && whole[1..] == b;
      if b != [] { JoinRegroups(x, y, Join(b, sep), sep); }
    } else {
      assert split[1..] == a[1..] + [x, y] + b && whole[1..] == a[1..] + [x + [sep] + y] + b;
      JoinSplits(a[1..], x, y, b, sep);
    }
  }

  lemma JoinRegroups(x: string, y: string, b: string, sep: char)
    ensures x + [sep] + (y + [sep] + b) == x + [sep] + y + [sep] + b
  {
  }

  lemma ImitatorText(host: string, n: Node, modules: seq<Component>)
    requires Imitates(host, n)
    ensures NodeText(Node(host, modules)) == NodeText(n) + ['|'] + NodeText(Node(Behind(host, n), modules))
  {
    var text, rest, m := NodeText(n), Behind(host, n), Join(ComponentTexts(modules), '/');
    assert host == text + ['|'] + rest;
    Associate(text + ['|'], rest, ['@']);
    Associate(text + ['|'], rest + ['@'], m);
  }

  lemma NodeTextsOfThree(a: Trace, b: Trace, c: Trace)
    ensures NodeTexts(a + b + c) == NodeTexts(a) + NodeTexts(b) + NodeTexts(c)
  {
    NodeTextsOfTwo(a + b, c);
    NodeTextsOfTwo(a, b);
  }

  lemma NodeTextsOfTwo(a: Trace, b: Trace)
    ensures NodeTexts(a + b) == NodeTexts(a) + NodeTexts(b)
  {
  }

  lemma UnfoldedText(t: Trace, i: nat, n: Node)
    requires i < |t| && Imitates(t[i].host, n)
    ensures TraceText(Unfolded(t, i, n)) == TraceText(t)
  {
    var m := Node(Behind(t[i].host, n), t[i].modules);
    ImitatorText(t[i].host, n, t[i].modules);
    NodeTextsOfThree(t[..i], [n, m], t[i + 1..]);
    NodeTextsOfThree(t[..i], [t[i]], t[i + 1..]);
    SplitAt(t, i);
    assert NodeTexts([n, m]) == [NodeText(n), NodeText(m)];
    assert NodeTexts([t[i]]) == [NodeText(n) + ['|'] + NodeText(m)];
    JoinSplits(NodeTexts(t[..i]), NodeText(n), NodeText(m), NodeTexts(t[i + 1..]), '|');
  }

  function HostLength(t: Trace): nat {
    if t == [] then 0 else |t[0].host| + HostLength(t[1..])
  }

  lemma {:induction false} HostLengthSplits(t: Trace, u: Trace)
    ensures HostLength(t + u) == HostLength(t) + HostLength(u)
  {
    if t == [] {
      assert t + u == u;
    } else {
      assert (t + u)[1..] == t[1..] + u;
      HostLengthSplits(t[1..], u);
    }
  }

  lemma UnfoldedIsShorter(t: Trace, i: nat, n: Node)
    requires i < |t| && Imitates(t[i].host, n)
    ensures HostLength(Unfolded(t, i, n)) < HostLength(t)
  {
    SplitAt(t, i);
    BehindIsShorter(t[i].host, n);
    TwoAreShorter(t[..i], t[i], n, Node(Behind(t[i].host, n), t[i].modules), t[i + 1..]);
  }

  lemma SplitAt(t: Trace, i: nat)
    requires i < |t|
    ensures t == t[..i] + [t[i]] + t[i + 1..]
  {
  }

  lemma BehindIsShorter(host: string, n: Node)
    requires Imitates(host, n)
    ensures |n.host| + |Behind(host, n)| < |host|
  {
  }

  lemma TwoAreShorter(a: Trace, whole: Node, m: Node, n: Node, c: Trace)
    requires |m.host| + |n.host| < |whole.host|
    ensures HostLength(a + [m, n] + c) < HostLength(a + [whole] + c)
  {
    HostLengthOfThree(a, [whole], c);
    HostLengthOfThree(a, [m, n], c);
    HostLengthOfTwo(m, n);
    HostLengthOfOne(whole);
  }

  lemma HostLengthOfThree(a: Trace, b: Trace, c: Trace)
    ensures HostLength(a + b + c) == HostLength(a) + HostLength(b) + HostLength(c)
  {
    HostLengthSplits(a + b, c);
    HostLengthSplits(a, b);
  }

  lemma HostLengthOfTwo(m: Node, n: Node)
    ensures HostLength([m, n]) == |m.host| + |n.host|
  {
    assert [m, n][1..] == [n];
    HostLengthOfOne(n);
  }

  lemma HostLengthOfOne(n: Node)
    ensures HostLength([n]) == |n.host|
  {
    assert [n][1..] == [];
  }

  lemma UnfoldedShape(t: Trace, i: nat, n: Node)
    requires i < |t| && Imitates(t[i].host, n)
    ensures |Unfolded(t, i, n)| == |t| + 1 && Unfolded(t, i, n)[|t|].modules == t[|t| - 1].modules
  {
  }

  lemma UnfoldOnce(t: Trace) returns (u: Trace)
    requires !HonestHosts(t)
    ensures TraceText(u) == TraceText(t) && HostLength(u) < HostLength(t)
    ensures t != [] && |u| == |t| + 1 && u[|t|].modules == t[|t| - 1].modules
  {
    var i, n :| 0 <= i < |t| && Imitates(t[i].host, n);
    u := Unfolded(t, i, n);
    UnfoldedText(t, i, n);
    UnfoldedIsShorter(t, i, n);
    UnfoldedShape(t, i, n);
  }

  /** Unfolding until every name is honest gives a longer trace with the same text. */
  lemma {:induction false} UnfoldAll(t: Trace) returns (q: Trace)
    ensures HonestHosts(q) && TraceText(q) == TraceText(t)
    ensures q == t || |q| > |t|
    ensures t != [] ==> q != [] && q[|q| - 1].modules == t[|t| - 1].modules
    decreases HostLength(t)
  {
    q := t;
    if !HonestHosts(t) {
      var u := UnfoldOnce(t);
      q := UnfoldAll(u);
    }
  }

  /** A trace is the only one of honest names with its text exactly when its own are honest. */
  lemma TextIdentifiesExactly(t: Trace)
    ensures (forall u :: HonestHosts(u) && TraceText(u) == TraceText(t) ==> u == t) <==> HonestHosts(t)
  {
    var q := UnfoldAll(t);
    if HonestHosts(t) {
      forall u | HonestHosts(u) && TraceText(u) == TraceText(t) ensures u == t {
        TraceTextInjective(u, t);
      }
    }
  }

  ghost predicate FitIsRight(child: Trace, parent: Trace) {
    FitWithParent(child, parent) <==> exists request :: IsPiece(child, parent, request)
  }

  /** A piece of a trace that prints like the parent but is longer. */
  lemma PieceOfDouble(rest: Trace, parent: Trace, request: nat) returns (child: Trace)
    requires HasModule(rest) && LastModule(rest).reqSequence != []
    requires TraceText(rest) == TraceText(parent) && |rest| > |parent|
    ensures child == PushRequest(rest, request) && HasModule(child) && (HonestHosts(rest) ==> HonestHosts(child))
    ensures FitWithParent(child, parent) && !exists r :: IsPiece(child, parent, r)
  {
    child := PushRequest(rest, request);
    PushedFits(rest, parent, request);
    assert |child| == |rest|;
    forall r ensures !IsPiece(child, parent, r) {
      PieceIsAsLong(child, parent, r);
    }
  }

  lemma PieceIsAsLong(child: Trace, parent: Trace, request: nat)
    ensures IsPiece(child, parent, request) ==> |child| == |parent|
  {
  }

  lemma UnfoldedKeepsLast(t: Trace, i: nat, n: Node)
    requires HasModule(t) && i < |t| && Imitates(t[i].host, n)
    ensures HasModule(Unfolded(t, i, n)) && LastModule(Unfolded(t, i, n)) == LastModule(t)
    ensures |Unfolded(t, i, n)| == |t| + 1
  {
    UnfoldedShape(t, i, n);
  }

  /** One step of imitation is enough: for every parent with a name that imitates a node
      there is a child that fits it and is no piece of it. */
  lemma ImitatorFits(parent: Trace, i: nat, n: Node, request: nat) returns (child: Trace)
    requires HasModule(parent) && LastModule(parent).reqSequence != [] && i < |parent| && Imitates(parent[i].host, n)
    ensures HasModule(Unfolded(parent, i, n)) && child == PushRequest(Unfolded(parent, i, n), request)
    ensures FitWithParent(child, parent) && !exists r :: IsPiece(child, parent, r)
  {
    UnfoldedText(parent, i, n);
    UnfoldedKeepsLast(parent, i, n);
    child := PieceOfDouble(Unfolded(parent, i, n), parent, request);
  }

  lemma PushedFits(rest: Trace, parent: Trace, request: nat)
    requires HasModule(rest) && LastModule(rest).reqSequence != [] && TraceText(rest) == TraceText(parent)
    ensures FitWithParent(PushRequest(rest, request), parent)
  {
    assert IsPiece(PushRequest(rest, request), rest, request);
    PieceFits(PushRequest(rest, request), rest, request);
  }

  /** fitWithParent() is right about a parent, for all children of honest names whose last
      node has a module, exactly when the names of the parent are honest. */
  lemma FitIsRightExactly(parent: Trace)
    requires HasModule(parent) && LastModule(parent).reqSequence != []
    ensures (forall child :: HonestHosts(child) && HasModule(child) ==> FitIsRight(child, parent))
            <==> HonestHosts(parent)
  {
    if HonestHosts(parent) {
      forall child | HonestHosts(child) && HasModule(child) ensures FitIsRight(child, parent) {
        FitsExactly(child, parent);
      }
    } else {
      var q := UnfoldAll(parent);
      var child := PieceOfDouble(q, parent, 0);
      assert !FitIsRight(child, parent);
    }
  }

  lemma FewRequestsNeverFit(child: Trace, parent: Trace)
    requires HasModule(child) && |LastModule(child).reqSequence| < 2
    ensures FitIsRight(child, parent) && !FitWithParent(child, parent)
  {
    forall request ensures !IsPiece(child, parent, request) {
      PieceHasTwo(child, parent, request);
    }
    if FindLast(TraceText(child), '.') > FindLast(TraceText(child), ':') {
      DotBehindColon(child);
    }
  }

  lemma PieceHasTwo(child: Trace, parent: Trace, request: nat)
    ensures IsPiece(child, parent, request) ==> HasModule(child) && |LastModule(child).reqSequence| >= 2
  {
  }

  /** A child of a dishonest name, with an honest parent that it fits and is no piece of. */
  lemma ImitatorsOtherParent(child: Trace) returns (parent: Trace)
    requires HasModule(child) && |LastModule(child).reqSequence| >= 2 && !HonestHosts(child)
    ensures HonestHosts(parent) && !FitIsRight(child, parent)
  {
    var rest, request := ChildWithoutLast(child);
    assert |child| == |rest| && forall i :: 0 <= i < |rest| ==> rest[i].host == child[i].host;
    parent := UnfoldAll(rest);
    assert IsPiece(child, rest, request);
    PieceFits(child, rest, request);
    forall r ensures !IsPiece(child, parent, r) {
      PieceIsAsLong(child, parent, r);
    }
  }

  /** fitWithParent() is right about a child whose last node has a module, for all parents
      of honest names, exactly when its names are honest, or its last module has no request
      to cut off and leave one. */
  lemma FitIsRightForChildExactly(child: Trace)
    requires HasModule(child)
    ensures (forall parent :: HonestHosts(parent) ==> FitIsRight(child, parent))
            <==> HonestHosts(child) || |LastModule(child).reqSequence| < 2
  {
    if |LastModule(child).reqSequence| < 2 {
      forall parent | HonestHosts(parent) ensures FitIsRight(child, parent) {
        FewRequestsNeverFit(child, parent);
      }
    } else if HonestHosts(child) {
      forall parent | HonestHosts(parent) ensures FitIsRight(child, parent) {
        FitsExactly(child, parent);
      }
    } else {
      var parent := ImitatorsOtherParent(child);
    }
  }

  // ---------------------------------------------------------------- a last node without modules

  lemma FindLastKeeps(s: string, tail: string, c: char)
    requires c !in tail
    ensures FindLast(s + tail, c) == FindLast(s, c)
  {
    forall k | |s| <= k < |s + tail| ensures (s + tail)[k] != c {
      assert (s + tail)[k] == tail[k - |s|];
    }
    if FindLast(s, c) >= 0 { assert (s + tail)[FindLast(s, c)] == c; }
  }

  lemma TextWithEmptyNode(t: Trace, host: string)
    ensures TraceText(t + [Node(host, [])]) == (if t == [] then "" else TraceText(t) + ['|']) + (host + ['@'])
  {
    assert NodeTexts(t + [Node(host, [])]) == NodeTexts(t) + [NodeText(Node(host, []))];
    assert NodeText(Node(host, [])) == host + ['@'] + "" == host + ['@'];
    JoinSnoc(NodeTexts(t), host + ['@'], '|');
  }

  lemma PrefixKeeps(s: string, tail: string, i: int)
    requires i < |s|
    ensures i >= 0 ==> (s + tail)[..i] == s[..i]
  {
  }

  /** Without dots and colons in its name, the node is cut off with the last request. */
  lemma EmptyNodeIsCutOff(t: Trace, host: string, parent: Trace)
    requires t != [] && '.' !in host && ':' !in host
    ensures FitWithParent(t + [Node(host, [])], parent) <==> FitWithParent(t, parent)
  {
    var tail := ['|'] + (host + ['@']);
    TextWithEmptyNode(t, host);
    Associate(TraceText(t), ['|'], host + ['@']);
    FindLastKeeps(TraceText(t), tail, '.');
    FindLastKeeps(TraceText(t), tail, ':');
    PrefixKeeps(TraceText(t), tail, FindLast(TraceText(t), '.'));
  }

  /** Behind the last '@' of a trace there is no '|'. */
  lemma LastAt(t: Trace) returns (at: nat)
    requires t != []
    ensures at < |TraceText(t)| && TraceText(t)[at] == '@'
    ensures forall k :: at < k < |TraceText(t)| ==> TraceText(t)[k] != '|' && TraceText(t)[k] != '@'
  {
    var n := t[|t| - 1];
    TextEndsInLastNode(t);
    ModulesTextLacks(n.modules, '|');
    ModulesTextLacks(n.modules, '@');
    at := LastAtOf(Before(NodeTexts(t), '|'), n.host, Join(ComponentTexts(n.modules), '/'), TraceText(t));
  }

  lemma LastAtOf(pre: string, host: string, tail: string, text: string) returns (at: nat)
    requires text == pre + (host + ['@'] + tail) && '|' !in tail && '@' !in tail
    ensures at < |text| && text[at] == '@'
    ensures forall k :: at < k < |text| ==> text[k] != '|' && text[k] != '@'
  {
    at := |pre| + |host|;
    forall k | at < k < |text| ensures text[k] != '|' && text[k] != '@' {
      assert text[k] == tail[k - at - 1];
    }
  }

  /** No trace prints as a text that ends in '|' and a part of a name without '@', and
      none as a non-empty text without '@'. */
  lemma NoTraceEndsThere(t: Trace, front: string, part: string)
    requires '@' !in part && (front == "" || front[|front| - 1] == '|') && front + part != ""
    ensures TraceText(t) != front + part
  {
    forall k | |front| <= k < |front + part| ensures (front + part)[k] != '@' {
      assert (front + part)[k] == part[k - |front|];
    }
    assert front != "" ==> (front + part)[|front| - 1] == '|';
    if t != [] {
      var at := LastAt(t);
    }
  }

  /** A dot behind every colon of front + name + '@' lies in the name, if the name has
      one of either. */
  lemma DotIsInName(front: string, host: string, dot: int, twoDots: int)
    requires var text := front + (host + ['@']); dot == FindLast(text, '.') && twoDots == FindLast(text, ':')
    requires dot > twoDots && ('.' in host || ':' in host || front == "")
    ensures |front| <= dot < |front| + |host|
    ensures (front + (host + ['@']))[..dot] == front + host[..dot - |front|]
  {
    var text := front + (host + ['@']);
    assert forall k :: 0 <= k < |host| ==> text[|front| + k] == host[k];
    if '.' in host || ':' in host {
      var k :| 0 <= k < |host| && (host[k] == '.' || host[k] == ':');
      assert text[|front| + k] == host[k];
    }
    assert text[|front| + |host|] == '@';
  }

  /** A dot or colon in the name of the last node, which has no modules, spoils the fit. */
  lemma MarkedNodeNeverFits(t: Trace, host: string, parent: Trace)
    requires '@' !in host && ('.' in host || ':' in host || t == [])
    ensures !FitWithParent(t + [Node(host, [])], parent)
  {
    var front := if t == [] then "" else TraceText(t) + ['|'];
    var text := TraceText(t + [Node(host, [])]);
    TextWithEmptyNode(t, host);
    var dot, twoDots := FindLast(text, '.'), FindLast(text, ':');
    if dot > twoDots >= 0 {
      DotIsInName(front, host, dot, twoDots);
      NoTraceEndsThere(parent, front, host[..dot - |front|]);
    }
  }

  lemma PieceHasModule(child: Trace, parent: Trace, request: nat)
    ensures IsPiece(child, parent, request) ==> HasModule(child)
  {
  }

  lemma NeverAPiece(t: Trace, host: string, parent: Trace)
    ensures !exists request :: IsPiece(t + [Node(host, [])], parent, request)
  {
    forall request ensures !IsPiece(t + [Node(host, [])], parent, request) {
      PieceHasModule(t + [Node(host, [])], parent, request);
    }
  }

  /** A child whose last node has no module, with a name without '@', fits exactly when the
      name has no dot and no colon and the child without that node fits; yet it is never a
      piece. So the test is right about it exactly when it says no. This holds whether the
      other names are honest or not. */
  lemma PlainEmptyNodeFitsExactly(t: Trace, host: string, parent: Trace)
    requires '@' !in host
    ensures FitWithParent(t + [Node(host, [])], parent)
            <==> t != [] && '.' !in host && ':' !in host && FitWithParent(t, parent)
    ensures !exists request :: IsPiece(t + [Node(host, [])], parent, request)
  {
    NeverAPiece(t, host, parent);
    if t != [] && '.' !in host && ':' !in host {
      EmptyNodeIsCutOff(t, host, parent);
    } else {
      MarkedNodeNeverFits(t, host, parent);
    }
  }

  // ---------------------------------------------------------------- names that imitate the rest of a child

  /** The parent is the child with another last node, and the name of the child's last node
      is the text of that one, a dot, and something without dots and colons. */
  predicate NamesNode(t: Trace, host: string, parent: Trace, x: Node, w: string) {
    && parent == t + [x] && host == NodeText(x) + ['.'] + w && '.' !in w && ':' !in w
    && ':' in TraceText(parent)
  }

  ghost predicate Names(t: Trace, host: string, parent: Trace) {
    exists x, w :: NamesNode(t, host, parent, x, w)
  }

  /** What the text of a child has before its last node. */
  function Front(t: Trace): string {
    if t == [] then "" else TraceText(t) + ['|']
  }

  lemma TextOfLast(t: Trace, x: Node)
    ensures TraceText(t + [x]) == Front(t) + NodeText(x)
  {
    assert NodeTexts(t + [x]) == NodeTexts(t) + [NodeText(x)];
    JoinSnoc(NodeTexts(t), NodeText(x), '|');
    if t == [] { assert "" + NodeText(x) == NodeText(x); }
  }

  lemma FrontOfFirst(t: Trace, part: string)
    requires t != []
    ensures Front(t) + part == NodeText(t[0]) + (['|'] + (Front(t[1..]) + part))
  {
    TextOfFirst(t);
    var a := NodeText(t[0]);
    if |t| == 1 {
      assert t[1..] == [];
      assert a + "" == a && "" + part == part;
      Associate(a, ['|'], part);
    } else {
      var rest := TraceText(t[1..]);
      Associate(a, ['|'] + rest, ['|']);
      Associate(['|'], rest, ['|']);
      Associate(a, ['|'] + (rest + ['|']), part);
      Associate(['|'], rest + ['|'], part);
    }
  }

  /** A name with a part that prints like several nodes imitates the first. */
  lemma PartImitates(host: string, part: string, parent: Trace)
    requires |part| <= |host| && host[..|part|] == part && parent != [] && TraceText(parent) == part
    ensures |parent| > 1 ==> Imitates(host, parent[0])
    ensures |parent| == 1 ==> NodeText(parent[0]) == part
  {
    TextOfFirst(parent);
    var a := NodeText(parent[0]);
    assert part[..|a|] == a;
    assert host[..|a|] == part[..|a|];
    assert |parent| > 1 ==> |a| < |part| && part[|a|] == '|';
    assert |a| < |part| ==> host[|a|] == host[..|part|][|a|];
    assert a + "" == a;
  }

  lemma FirstNodesMeet(t: Trace, part: string, parent: Trace)
    requires t != [] && parent != [] && Honest(t[0].host) && Honest(parent[0].host)
    requires TraceText(parent) == Front(t) + part
    ensures parent[0] == t[0] && |parent| > 1 && TraceText(parent[1..]) == Front(t[1..]) + part
  {
    FrontOfFirst(t, part);
    TextOfFirst(parent);
    var text, a, b := TraceText(parent), NodeText(t[0]), NodeText(parent[0]);
    var rest := Front(t[1..]) + part;
    assert text == a + (['|'] + rest);
    assert text[..|a|] == a && text[..|b|] == b && text[|a|] == '|';
    if |a| < |b| {
      LongerImitates(t[0], parent[0], text);
    } else if |b| < |a| {
      assert |parent| > 1 && text[|b|] == '|';
      LongerImitates(parent[0], t[0], text);
    } else {
      NodeTextInjective(t[0], parent[0]);
      assert |parent| > 1;
      assert text[|a|..] == ['|'] + rest && text[|b|..] == ['|'] + TraceText(parent[1..]);
      assert (['|'] + rest)[1..] == rest && (['|'] + TraceText(parent[1..]))[1..] == TraceText(parent[1..]);
    }
  }

  lemma HonestTail(t: Trace)
    requires HonestHosts(t) && t != []
    ensures HonestHosts(t[1..]) && Honest(t[0].host)
  {
  }

  lemma Rejoin(t: Trace, parent: Trace, x: Node)
    requires t != [] && parent != [] && parent[0] == t[0] && parent[1..] == t[1..] + [x]
    ensures parent == t + [x]
  {
    assert parent == [parent[0]] + parent[1..] && t == [t[0]] + t[1..];
  }

  lemma OneNode(host: string, part: string, parent: Trace)
    requires Honest(host) && |part| <= |host| && host[..|part|] == part && parent != [] && TraceText(parent) == part
    ensures parent == [parent[0]] && NodeText(parent[0]) == part
  {
    PartImitates(host, part, parent);
  }

  /** A trace of honest names that prints like nodes of a child and a part of its last name
      is these nodes and one more, which prints as that part. */
  lemma {:induction false} ContinuesWithOne(t: Trace, host: string, part: string, parent: Trace) returns (x: Node)
    requires HonestHosts(t) && HonestHosts(parent) && parent != []
    requires Honest(host) && |part| <= |host| && host[..|part|] == part
    requires TraceText(parent) == Front(t) + part
    ensures parent == t + [x] && NodeText(x) == part
    decreases |t|
  {
    if t == [] {
      assert "" + part == part;
      OneNode(host, part, parent);
      x := parent[0];
    } else {
      HonestTail(t);
      HonestTail(parent);
      FirstNodesMeet(t, part, parent);
      x := ContinuesWithOne(t[1..], host, part, parent[1..]);
      Rejoin(t, parent, x);
    }
  }

  lemma NamedFits(t: Trace, host: string, parent: Trace, x: Node, w: string)
    requires NamesNode(t, host, parent, x, w)
    ensures FitWithParent(t + [Node(host, [])], parent)
  {
    TextWithEmptyNode(t, host);
    TextOfLast(t, x);
    Associate(Front(t), NodeText(x) + ['.'] + w, ['@']);
    NamedText(Front(t), NodeText(x), w);
    CutAtDot(TraceText(parent), w + ['@']);
  }

  lemma NamedText(front: string, x: string, w: string)
    ensures front + (x + ['.'] + w + ['@']) == front + x + ['.'] + (w + ['@'])
  {
  }

  /** The last dot of a name, with what comes before and behind it. */
  lemma LastDotSplits(front: string, host: string, dot: int, twoDots: int)
    requires var text := front + (host + ['@']); dot == FindLast(text, '.') && twoDots == FindLast(text, ':')
    requires dot > twoDots && |front| <= dot < |front| + |host|
    ensures var k := dot - |front|;
            host == host[..k] + ['.'] + host[k + 1..] && '.' !in host[k + 1..] && ':' !in host[k + 1..]
  {
    var text, k := front + (host + ['@']), dot - |front|;
    assert forall i :: 0 <= i < |host| ==> text[|front| + i] == host[i];
    assert host[k] == '.';
    var w := host[k + 1..];
    forall i | 0 <= i < |w| ensures w[i] != '.' && w[i] != ':' {
      assert w[i] == text[dot + 1 + i];
    }
  }

  lemma ColonIsBefore(text: string, dot: int)
    requires 0 <= FindLast(text, ':') < dot <= |text|
    ensures ':' in text[..dot]
  {
    assert text[..dot][FindLast(text, ':')] == ':';
  }

  /** What a fit says of the name: a part of it ends what the parent prints as. */
  lemma FittingSplitsName(t: Trace, host: string, parent: Trace) returns (part: string, w: string)
    requires ('.' in host || ':' in host || t == []) && FitWithParent(t + [Node(host, [])], parent)
    ensures host == part + ['.'] + w && '.' !in w && ':' !in w
    ensures |part| <= |host| && host[..|part|] == part && parent != []
    ensures TraceText(parent) == Front(t) + part && ':' in TraceText(parent)
  {
    var text := TraceText(t + [Node(host, [])]);
    TextWithEmptyNode(t, host);
    var dot, twoDots := FindLast(text, '.'), FindLast(text, ':');
    DotIsInName(Front(t), host, dot, twoDots);
    LastDotSplits(Front(t), host, dot, twoDots);
    ColonIsBefore(text, dot);
    part, w := host[..dot - |Front(t)|], host[dot - |Front(t)| + 1..];
  }

  /** A child of honest names whose last node has no module is never a piece, and it fits an
      honest parent exactly in two cases: its last name has no dot and no colon and the child
      without that node fits, or that name imitates the last node of the parent. */
  lemma EmptyNodeFitsExactly(t: Trace, host: string, parent: Trace)
    requires HonestHosts(t) && Honest(host) && HonestHosts(parent)
    ensures FitWithParent(t + [Node(host, [])], parent)
            <==> (t != [] && '.' !in host && ':' !in host && FitWithParent(t, parent)) || Names(t, host, parent)
    ensures !exists request :: IsPiece(t + [Node(host, [])], parent, request)
  {
    NeverAPiece(t, host, parent);
    if x, w :| NamesNode(t, host, parent, x, w) {
      NamedFits(t, host, parent, x, w);
    }
    if t != [] && '.' !in host && ':' !in host {
      EmptyNodeIsCutOff(t, host, parent);
    } else if FitWithParent(t + [Node(host, [])], parent) {
      var part, w := FittingSplitsName(t, host, parent);
      var x := ContinuesWithOne(t, host, part, parent);
      assert NamesNode(t, host, parent, x, w);
    }
  }

  lemma NameOfParentFits(parent: Trace, host: string, w: string)
    requires host == TraceText(parent) + ['.'] + w && ':' in TraceText(parent) && '.' !in w && ':' !in w
    ensures FitWithParent([Node(host, [])], parent)
  {
    TextWithEmptyNode([], host);
    assert [] + [Node(host, [])] == [Node(host, [])];
    assert "" + (host + ['@']) == host + ['@'];
    Associate(TraceText(parent) + ['.'], w, ['@']);
    CutAtDot(TraceText(parent), w + ['@']);
  }

  lemma ColonOfParent(parent: Trace)
    requires HasModule(parent)
    ensures ':' in TraceText(parent)
  {
    TextFromHead(parent);
    assert TraceText(parent)[|Head(parent)|] == ':';
  }

  /** Every parent with a module has such an imitator, and where it prints without '|' the
      name of the imitator is honest. */
  lemma ParentIsNamed(parent: Trace, request: nat) returns (host: string)
    requires HasModule(parent)
    ensures host == TraceText(parent) + ['.'] + Dec(request)
    ensures FitWithParent([Node(host, [])], parent) && !exists r :: IsPiece([Node(host, [])], parent, r)
    ensures '|' !in TraceText(parent) ==> Honest(host)
  {
    host := TraceText(parent) + ['.'] + Dec(request);
    ColonOfParent(parent);
    NameOfParentFits(parent, host, Dec(request));
    NeverAPiece([], host, parent);
    assert [] + [Node(host, [])] == [Node(host, [])];
    if '|' !in TraceText(parent) {
      PlainIsHonest(host);
    }
  }
}
