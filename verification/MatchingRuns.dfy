/** What the matching engine guarantees over whole runs of one rank:
    conservation of calls, no overtaking (section 3.5 of MPI 3.1), no missed match. */
module MatchingRuns {
  import opened Sequences
  import opened Matching

  /** Calls the rank can receive, calls it can block in, and the release of a
      blocking call that is not matched from the list (a barrier, a gather). */
  datatype Event =
    | Arrives(op: nat, sender: nat, size: int)
    | Posts(call: Call)
    | Released

  /** `posted` is the call the rank has blocked in last; `posts` are the calls it was blocked in
      when those in `matched` were matched, one by one. */
  datatype History = History(mpi: Mpi, arrived: seq<Call>, matched: seq<Call>, posted: Call, posts: seq<Call>)

  const START: History := History(Mpi(NO_CALL, NO_CALL, []), [], [], NO_CALL, [])

  predicate Synchronizing(op: nat) {
    op == MPI_RECV || op == MPI_SCATTER || op == MPI_BCAST
  }

  predicate Enabled(h: History, e: Event) {
    match e
    case Arrives(op, _, _) => Listable(op)
    case Posts(c) => h.mpi.current.op == MPI_NO_VALUE && c.op != MPI_NO_VALUE
    case Released => !Synchronizing(h.mpi.current.op)
  }

  function Record(h: History, s: Sync): History {
    if s.matched.Some?
    then h.(mpi := s.mpi, matched := h.matched + [s.matched.value], posts := h.posts + [h.posted])
    else h.(mpi := s.mpi)
  }

  function Next(h: History, e: Event): History {
    if !Enabled(h, e) then h
    else
      match e
      case Arrives(op, sender, size) =>
        var c := Listed(op, sender, size, |h.arrived|);
        Record(h.(arrived := h.arrived + [c]), Arrive(h.mpi, c))
      case Posts(c) =>
        if Synchronizing(c.op) then Record(h.(posted := c), Post(h.mpi, c))
        else h.(posted := c, mpi := h.mpi.(current := c))
      case Released => h.(mpi := h.mpi.(current := NO_CALL))
  }

  function After(events: seq<Event>): History {
    if events == [] then START else Next(After(events[..|events| - 1]), events[|events| - 1])
  }

  predicate SameClass(a: Call, b: Call) {
    a.op == b.op && a.sender == b.sender && a.size == b.size
  }

  predicate Numbered(h: History) {
    forall i :: 0 <= i < |h.arrived| ==> h.arrived[i].tag == i && Listable(h.arrived[i].op)
  }

  /** Nothing is lost and nothing is made up. */
  predicate Conserved(h: History) {
    multiset(h.arrived) == multiset(h.matched) + multiset(h.mpi.list)
  }

  predicate ListedInOrder(h: History) {
    forall i, j :: 0 <= i < j < |h.mpi.list| ==> h.mpi.list[i].tag < h.mpi.list[j].tag
  }

  /** Calls of one class leave in arrival order, and before every one still listed. */
  predicate NoOvertaking(h: History) {
    && (forall p, q :: 0 <= p < q < |h.matched| && SameClass(h.matched[p], h.matched[q]) ==>
          h.matched[p].tag < h.matched[q].tag)
    && (forall p, i :: 0 <= p < |h.matched| && 0 <= i < |h.mpi.list| && SameClass(h.matched[p], h.mpi.list[i]) ==>
          h.matched[p].tag < h.mpi.list[i].tag)
  }

  /** What a rank blocked in p asks for: a receive a send of its size, from its sender if it
      names one; a scatter or a broadcast its like, of its size, from its sender or its root. */
  predicate Answers(p: Call, c: Call) {
    || (p.op == MPI_RECV && c.op == MPI_SEND && c.size == p.size
        && (p.sender == MPI_ANY_SENDER || c.sender == p.sender))
    || (p.op == MPI_SCATTER && c.op == MPI_SCATTER && c.size == p.size
        && (p.sender == MPI_ANY_SENDER || c.sender == p.sender))
    || (p.op == MPI_BCAST && c.op == MPI_BCAST && c.size == p.size && (p.root == MPI_ANY_SENDER || c.sender == p.root))
  }

  /** The search of synchronize() is for what was asked. */
  lemma FitsWhatIsAsked(p: Call, c: Call)
    requires Listable(c.op) && p.op != MPI_NO_VALUE
    ensures Fits(SearchKey(p), c) <==> Answers(p, c)
  {
  }

  /** Each matched call is what was asked, and none that was left for later and had arrived
      before it is; the rank is blocked in what it posted last. */
  predicate Paired(h: History) {
    && |h.posts| == |h.matched|
    && (h.mpi.current.op != MPI_NO_VALUE ==> h.mpi.current == h.posted)
    && (forall q :: 0 <= q < |h.matched| ==> Answers(h.posts[q], h.matched[q]))
    && (forall q, r :: 0 <= q < r < |h.matched| && h.matched[r].tag < h.matched[q].tag ==>
          !Answers(h.posts[q], h.matched[r]))
    && (forall q, i :: 0 <= q < |h.matched| && 0 <= i < |h.mpi.list| && h.mpi.list[i].tag < h.matched[q].tag ==>
          !Answers(h.posts[q], h.mpi.list[i]))
  }

  /** lastSynchroMPICall: the last call matched, with the sender it turned out to be from. */
  predicate LastIsKept(h: History)
    requires |h.posts| == |h.matched|
  {
    var n := |h.posts|;
    h.mpi.last == if n == 0 then NO_CALL
                  else if h.posts[n - 1].sender == MPI_ANY_SENDER
                  then h.posts[n - 1].(sender := h.matched[n - 1].sender)
                  else h.posts[n - 1]
  }

  predicate Good(h: History) {
    && Numbered(h) && Conserved(h) && ListedInOrder(h) && NoOvertaking(h) && Starved(h.mpi)
    && Paired(h) && LastIsKept(h)
  }

  /** A matching step finds what was asked, and the earliest of it. */
  lemma MatchingPairs(h: History, m: Mpi)
    requires Numbered(h) && Conserved(h) && ListedInOrder(h) && Paired(h) && LastIsKept(h)
    requires m.list == h.mpi.list && m.last == h.mpi.last && (m.current.op != MPI_NO_VALUE ==> m.current == h.posted)
    ensures Paired(Record(h, Synchronize(m))) && LastIsKept(Record(h, Synchronize(m)))
  {
    var i := FirstFit(SearchKey(m.current), m.list);
    if Synchronize(m).matched.Some? {
      var c := m.list[i];
      var h' := Record(h, Synchronize(m));
      WithoutKeepsOrder(m.list, i);
      forall k | 0 <= k < |m.list| ensures Listable(m.list[k].op) {
        Arrived(h, m.list[k]);
      }
      forall k | 0 <= k <= i ensures Answers(h.posted, m.list[k]) <==> k == i {
        FitsWhatIsAsked(m.current, m.list[k]);
      }
      forall q, a | 0 <= q < |h'.matched| && 0 <= a < |h'.mpi.list| && h'.mpi.list[a].tag < h'.matched[q].tag
        ensures !Answers(h'.posts[q], h'.mpi.list[a])
      {
        assert h'.mpi.list[a] == m.list[if a < i then a else a + 1];
      }
    }
  }

  lemma Arrived(h: History, c: Call)
    requires Numbered(h) && Conserved(h)
    requires c in h.matched || c in h.mpi.list
    ensures c in h.arrived && c.tag < |h.arrived| && Listable(c.op)
  {
    assert c in multiset(h.matched) || c in multiset(h.mpi.list);
    assert c in multiset(h.arrived);
  }

  lemma WithoutKeepsOrder(list: seq<Call>, i: nat)
    requires i < |list|
    requires forall a, b :: 0 <= a < b < |list| ==> list[a].tag < list[b].tag
    ensures forall a, b :: 0 <= a < b < |list| - 1 ==> Without(list, i)[a].tag < Without(list, i)[b].tag
    ensures forall a :: 0 <= a < |list| - 1 ==> Without(list, i)[a] == list[if a < i then a else a + 1]
  {
  }

  /** Taking the first fit out of the list cannot overtake: whatever is of its class fits too. */
  lemma FirstFitDoesNotOvertake(h: History, m: Mpi)
    requires ListedInOrder(h) && NoOvertaking(h)
    requires m.list == h.mpi.list && Synchronize(m).matched.Some?
    ensures ListedInOrder(Record(h, Synchronize(m))) && NoOvertaking(Record(h, Synchronize(m)))
  {
    var i := FirstFit(SearchKey(m.current), m.list);
    var c := m.list[i];
    var h' := Record(h, Synchronize(m));
    WithoutKeepsOrder(m.list, i);
    assert h'.matched == h.matched + [c] && h'.mpi.list == Without(m.list, i);
    forall p, a | 0 <= p < |h'.matched| && 0 <= a < |h'.mpi.list| && SameClass(h'.matched[p], h'.mpi.list[a])
      ensures h'.matched[p].tag < h'.mpi.list[a].tag
    {
      var b := if a < i then a else a + 1;
      assert h'.mpi.list[a] == m.list[b];
      if p == |h.matched| && b < i {
        assert Fits(SearchKey(m.current), m.list[b]);
        assert false;
      }
    }
  }

  lemma MatchingConserves(h: History, m: Mpi)
    requires Conserved(h) && m.list == h.mpi.list
    ensures Conserved(Record(h, Synchronize(m)))
  {
    SynchronizeStarves(m);
    if Synchronize(m).matched.Some? {
      var c := Synchronize(m).matched.value;
      assert multiset(h.matched + [c]) == multiset(h.matched) + multiset{c};
      assert c in multiset(m.list);
    }
  }

  /** One matching step keeps everything, whatever made it run. */
  lemma RecordKeeps(h: History, m: Mpi)
    requires Numbered(h) && Conserved(h) && ListedInOrder(h) && NoOvertaking(h)
    requires Paired(h) && LastIsKept(h)
    requires m.list == h.mpi.list && m.last == h.mpi.last && (m.current.op != MPI_NO_VALUE ==> m.current == h.posted)
    ensures Good(Record(h, Synchronize(m)))
  {
    MatchingPairs(h, m);
    MatchingConserves(h, m);
    assert Starved(Synchronize(m).mpi) by { SynchronizeStarves(m); }
    if Synchronize(m).matched.Some? {
      FirstFitDoesNotOvertake(h, m);
    } else {
      assert Synchronize(m).mpi == m by { SynchronizeStarves(m); }
    }
  }

  function Appended(h: History, c: Call): History {
    h.(arrived := h.arrived + [c], mpi := h.mpi.(list := h.mpi.list + [c]))
  }

  /** A new arrival has the highest number so far and goes to the end of the list. */
  lemma ArrivalKeeps(h: History, c: Call)
    requires Good(h) && c.tag == |h.arrived| && Listable(c.op)
    ensures var g := Appended(h, c);
            Numbered(g) && Conserved(g) && ListedInOrder(g) && NoOvertaking(g)
  {
    var g := Appended(h, c);
    assert multiset(g.arrived) == multiset(h.arrived) + multiset{c};
    assert multiset(g.mpi.list) == multiset(h.mpi.list) + multiset{c};
    forall d | d in h.matched || d in h.mpi.list
      ensures d.tag < c.tag
    {
      Arrived(h, d);
    }
    forall p, i | 0 <= p < |g.matched| && 0 <= i < |g.mpi.list| && SameClass(g.matched[p], g.mpi.list[i])
      ensures g.matched[p].tag < g.mpi.list[i].tag
    {
      assert g.matched[p] in h.matched;
    }
    forall i, j | 0 <= i < j < |g.mpi.list|
      ensures g.mpi.list[i].tag < g.mpi.list[j].tag
    {
      assert g.mpi.list[i] in h.mpi.list;
    }
  }

  lemma ArrivalKeepsPairs(h: History, c: Call)
    requires Good(h) && c.tag == |h.arrived|
    ensures Paired(Appended(h, c)) && LastIsKept(Appended(h, c))
  {
    forall q | 0 <= q < |h.matched| ensures h.matched[q].tag < c.tag {
      Arrived(h, h.matched[q]);
    }
  }

  /** Blocking in a call that no message answers: a barrier or a gather. */
  lemma OtherPostKeeps(h: History, c: Call)
    requires Good(h) && !Synchronizing(c.op) && c.op != MPI_NO_VALUE
    ensures Good(h.(posted := c, mpi := h.mpi.(current := c)))
  {
    forall d | d in h.mpi.list ensures !Fits(SearchKey(c), d) {
      Arrived(h, d);
    }
  }

  lemma ArrivesKeeps(h: History, op: nat, sender: nat, size: int)
    requires Good(h) && Listable(op)
    ensures Good(Next(h, Arrives(op, sender, size)))
  {
    var c := Listed(op, sender, size, |h.arrived|);
    ArrivalKeeps(h, c);
    ArrivalKeepsPairs(h, c);
    RecordKeeps(Appended(h, c), Appended(h, c).mpi);
    ArrivesIs(h, op, sender, size);
  }

  lemma ArrivesIs(h: History, op: nat, sender: nat, size: int)
    requires Listable(op)
    ensures var g := Appended(h, Listed(op, sender, size, |h.arrived|));
            Next(h, Arrives(op, sender, size)) == Record(g, Synchronize(g.mpi))
  {
  }

  lemma PostsKeeps(h: History, c: Call)
    requires Good(h) && Enabled(h, Posts(c)) && Synchronizing(c.op)
    ensures Good(Next(h, Posts(c)))
  {
    var g := h.(posted := c, mpi := h.mpi.(current := c));
    RecordKeeps(g, g.mpi);
    assert Next(h, Posts(c)) == Record(g, Post(h.mpi, c));
  }

  lemma NextKeeps(h: History, e: Event)
    requires Good(h)
    ensures Good(Next(h, e))
  {
    if Enabled(h, e) {
      match e
      case Arrives(op, sender, size) => ArrivesKeeps(h, op, sender, size);
      case Posts(c) => if Synchronizing(c.op) { PostsKeeps(h, c); } else { OtherPostKeeps(h, c); }
      case Released =>
    }
  }

  lemma {:induction false} RunsAreGood(events: seq<Event>)
    ensures Good(After(events))
  {
    if events != [] {
      RunsAreGood(events[..|events| - 1]);
      NextKeeps(After(events[..|events| - 1]), events[|events| - 1]);
    }
  }

  lemma {:induction false} SplitTwice(s: seq<Call>, p: nat, q: nat)
    requires p < q < |s| && s[p] == s[q]
    ensures multiset(s)[s[p]] >= 2
  {
    assert s == s[..q] + [s[q]] + s[q + 1..];
    assert s[p] in s[..q];
  }

  lemma {:induction false} NumberedOnce(s: seq<Call>, c: Call)
    requires forall i :: 0 <= i < |s| ==> s[i].tag == i
    ensures multiset(s)[c] <= 1
  {
    if s != [] {
      var n := |s| - 1;
      NumberedOnce(s[..n], c);
      assert s == s[..n] + [s[n]];
      if c == s[n] {
        assert c !in s[..n];
      }
    }
  }

  /** Over any sequence of arrivals and blocking calls, a call is matched at most
      once and never while it is still listed. */
  lemma MatchedAtMostOnce(events: seq<Event>, p: nat, q: nat)
    requires var h := After(events); p < q < |h.matched|
    ensures After(events).matched[p] != After(events).matched[q]
    ensures After(events).matched[p] !in After(events).mpi.list
  {
    RunsAreGood(events);
    var h := After(events);
    NumberedOnce(h.arrived, h.matched[p]);
    assert multiset(h.matched)[h.matched[p]] + multiset(h.mpi.list)[h.matched[p]] <= 1;
    if h.matched[p] == h.matched[q] {
      SplitTwice(h.matched, p, q);
    }
    assert h.matched[p] in multiset(h.matched);
  }

  /** Section 3.5 of MPI 3.1: when a call has been matched, every earlier arrival of
      its class has been matched before it. */
  lemma MatchedInArrivalOrder(events: seq<Event>, q: nat, j: nat)
    requires var h := After(events); q < |h.matched| && j < h.matched[q].tag
    requires var h := After(events); j < |h.arrived| && SameClass(h.arrived[j], h.matched[q])
    ensures exists p :: 0 <= p < q && After(events).matched[p] == After(events).arrived[j]
  {
    RunsAreGood(events);
    var h := After(events);
    var a := h.arrived[j];
    assert a in multiset(h.arrived);
    assert a in h.matched || a in h.mpi.list;
    assert a in h.matched;
    var p :| 0 <= p < |h.matched| && h.matched[p] == a;
    assert p != q;
    if p > q {
      assert SameClass(h.matched[q], h.matched[p]);
    }
  }

  /** A blocked receive never overlooks a call: whatever is listed does not fit. */
  lemma BlockedMeansNothingFits(events: seq<Event>, c: Call)
    requires var h := After(events); h.mpi.current.op != MPI_NO_VALUE && c in h.mpi.list
    ensures !Fits(SearchKey(After(events).mpi.current), c)
    ensures c in After(events).arrived && c !in After(events).matched
  {
    RunsAreGood(events);
    var h := After(events);
    Arrived(h, c);
    NumberedOnce(h.arrived, c);
    assert multiset(h.mpi.list)[c] >= 1;
  }

  /** Field by field: a matched call has the type, the size and the sender that the call the rank
      was blocked in asked for. */
  lemma MatchedIsWhatWasAsked(events: seq<Event>, q: nat)
    requires q < |After(events).matched|
    ensures var h := After(events);
            && |h.posts| == |h.matched| && Synchronizing(h.posts[q].op)
            && var (p, c) := (h.posts[q], h.matched[q]);
            && c.size == p.size
            && (p.op == MPI_RECV ==> c.op == MPI_SEND && (p.sender == MPI_ANY_SENDER || c.sender == p.sender))
            && (p.op == MPI_SCATTER ==> c.op == MPI_SCATTER && (p.sender == MPI_ANY_SENDER || c.sender == p.sender))
            && (p.op == MPI_BCAST ==> c.op == MPI_BCAST && (p.root == MPI_ANY_SENDER || c.sender == p.root))
  {
    RunsAreGood(events);
  }

  /** And while a rank is blocked, no listed call is what it asked for. */
  lemma ListedIsNotAsked(events: seq<Event>, c: Call)
    requires var h := After(events); h.mpi.current.op != MPI_NO_VALUE && c in h.mpi.list
    ensures var h := After(events);
            var p := h.posted;
            && h.mpi.current == p
            && !(p.op == MPI_RECV && c.op == MPI_SEND && c.size == p.size
                 && (p.sender == MPI_ANY_SENDER || c.sender == p.sender))
            && !(p.op == MPI_SCATTER && c.op == MPI_SCATTER && c.size == p.size
                 && (p.sender == MPI_ANY_SENDER || c.sender == p.sender))
            && !(p.op == MPI_BCAST && c.op == MPI_BCAST && c.size == p.size
                 && (p.root == MPI_ANY_SENDER || c.sender == p.root))
  {
    RunsAreGood(events);
    var h := After(events);
    Arrived(h, c);
    FitsWhatIsAsked(h.mpi.current, c);
  }

  /** Whatever arrived before a matched call and was what that match asked for, of any sender,
      has been matched before it. */
  lemma MatchedIsTheEarliestAsked(events: seq<Event>, q: nat, j: nat)
    requires var h := After(events); q < |h.matched| && |h.posts| == |h.matched| && j < h.matched[q].tag
    requires var h := After(events); j < |h.arrived| && Answers(h.posts[q], h.arrived[j])
    ensures exists p :: 0 <= p < q && After(events).matched[p] == After(events).arrived[j]
  {
    RunsAreGood(events);
    var h := After(events);
    var a := h.arrived[j];
    assert a in multiset(h.arrived);
    assert a in h.matched || a in h.mpi.list;
    assert a in h.matched;
    var p :| 0 <= p < |h.matched| && h.matched[p] == a;
    assert p != q && !(p > q);
  }

  /** The last synchronised call is the last one that was matched, with the sender of its match. */
  lemma LastSynchronized(events: seq<Event>)
    ensures var h := After(events);
            |h.posts| == |h.matched| && LastIsKept(h)
  {
    RunsAreGood(events);
  }
}
