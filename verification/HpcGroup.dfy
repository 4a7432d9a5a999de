/** A master and its workers as one system: every interleaving of their steps and
    every delivery order of the messages in flight. */
module HpcGroup {
  import opened Matching
  import opened Hpc

  datatype Group = Group(ranks: seq<Rank>, net: multiset<Msg>)

  /** SM_WAIT_TO_EXECUTE fires, a Ready rank runs calculateNextState(), the operating
      system answers, or the network hands over a message. */
  datatype Step = Begin(rank: nat) | Run(rank: nat) | Answer(rank: nat) | Deliver(msg: Msg)

  predicate Enabled(g: Group, step: Step) {
    match step
    case Begin(i) => i < |g.ranks| && g.ranks[i].waiting.NotStarted?
    case Run(i) => i < |g.ranks| && g.ranks[i].waiting.Ready?
    case Answer(i) => i < |g.ranks| && (var w := g.ranks[i].waiting; w.OnIo? || w.OnMem? || w.OnCpu?)
    case Deliver(m) => m in g.net && m.dst < |g.ranks|
  }

  function Apply(cfg: Config, g: Group, step: Step): Group
    requires Enabled(g, step)
  {
    match step
    case Begin(i) => g.(ranks := g.ranks[i := g.ranks[i].(waiting := Ready)])
    case Run(i) =>
      var e := NextState(cfg, i, g.ranks[i]);
      Group(g.ranks[i := e.rank], g.net + multiset(e.sent))
    case Answer(i) => g.(ranks := g.ranks[i := Reply(g.ranks[i], true)])
    case Deliver(m) => Group(g.ranks[m.dst := Receive(g.ranks[m.dst], m)], g.net - multiset{m})
  }

  /** totalResponses is not initialised by the source. */
  predicate InitialRank(r: Rank) {
    r == Rank(Phase.Init, r.totalResponses, 1, false, NotStarted, Mpi(NO_CALL, r.mpi.last, []),
              NOTHING_SERVED, 0, [], [])
  }

  predicate Initial(cfg: Config, g: Group) {
    && |g.ranks| == cfg.workersSet
    && g.net == multiset{}
    && forall i :: 0 <= i < |g.ranks| ==> InitialRank(g.ranks[i])
  }

  /** A run of the group: states before and after each step. */
  predicate IsRun(cfg: Config, states: seq<Group>, steps: seq<Step>) {
    && |states| == |steps| + 1
    && Initial(cfg, states[0])
    && forall k :: 0 <= k < |steps| ==> Enabled(states[k], steps[k]) && states[k + 1] == Apply(cfg, states[k], steps[k])
  }

  ghost predicate Stuck(g: Group) {
    forall step :: !Enabled(g, step)
  }

  // ---------------------------------------------------------------- what holds of one rank

  /** Data rounds the master has sent. */
  function Delivered(r: Rank): int {
    r.iteration - 1 + if r.phase.MasterDelivering? || r.phase.MasterWaiting? || r.phase.MasterWriting? then 1 else 0
  }

  predicate Got(r: Rank, w: nat) {
    exists i :: 0 <= i < |r.received| && r.received[i].sender == w
  }

  /** Results of worker w the master has matched. */
  function Collected(r: Rank, w: nat): int {
    r.iteration - 1 + if Got(r, w) then 1 else 0
  }

  /** Data messages a worker has matched, and results it has sent. */
  function Consumed(r: Rank): int {
    r.iteration - 1 + |r.received|
  }

  function SentBack(r: Rank): int {
    r.iteration - 1 + if r.phase.WorkerSendingBack? then 1 else 0
  }

  /** Results of iteration `iter`, at most one from each worker. */
  predicate Receipts(cfg: Config, cs: seq<Call>, iter: int) {
    && iter >= 0
    && (forall i :: 0 <= i < |cs| ==>
          1 <= cs[i].sender < cfg.workersSet && cs[i] == AsCall(Result(cfg, cs[i].sender, iter)))
    && (forall i, j :: 0 <= i < j < |cs| ==> cs[i].sender != cs[j].sender)
  }

  predicate Progress(cfg: Config, r: Rank) {
    && 1 <= r.iteration <= cfg.Rounds() + 1
    && |r.history| == r.iteration - 1
    && (r.waiting.Finished? <==> r.iteration == cfg.Rounds() + 1)
    && (r.waiting.Finished? || r.waiting.NotStarted? ==> r.phase.Init?)
    && (r.waiting.NotStarted? ==> r.iteration == 1 && !r.created)
  }

  function PerRound(n: int, rounds: int, more: int): int {
    n * rounds + more
  }

  predicate MasterPhase(cfg: Config, r: Rank) {
    var t, n, w := r.totalResponses, |r.received|, cfg.workersSet;
    match r.phase
    case Init =>
      && n == 0
      && (r.waiting.NotStarted? || r.waiting.Ready? || r.waiting.Finished?
          || (r.waiting == OnIo(Create) && t == 1 && r.created && r.iteration == 1))
      && (r.created ==> !cfg.workersWrite) && (r.iteration > 1 ==> r.created == !cfg.workersWrite)
    case MasterReading =>
      && n == 0
      && ((r.waiting == OnIo(Read) && !cfg.workersRead && 1 <= t <= w)
          || (r.waiting.Ready? && if cfg.workersRead then t == 0 else t < w))
    case MasterDelivering => n == 0 && r.waiting.Ready?
    case MasterWaiting => t >= 1 && ((r.waiting.OnRecv? && n + t == w - 1) || (r.waiting.Ready? && n + t == w))
    case MasterWriting =>
      && n == w - 1
      && ((r.waiting == OnIo(Write) && !cfg.workersWrite && 1 <= t <= w)
          || (r.waiting.Ready? && if cfg.workersWrite then t == 0 else t < w))
    case _ => false
  }

  /** The results file is created once, by who writes it. */
  predicate CreatedOnce(mine: bool, r: Rank) {
    r.served.files == if mine && r.created && r.waiting != OnIo(Create) then 1 else 0
  }

  /** Answers so far: a whole round's worth for each iteration done, and this one's; and the
      data messages sent. */
  predicate MasterIo(cfg: Config, r: Rank) {
    var done := cfg.workersSet - r.totalResponses;
    && CreatedOnce(!cfg.workersWrite, r)
    && r.served.fetched == (if cfg.workersRead then 0 else
         PerRound(cfg.workersSet, r.iteration - 1,
                  if r.phase.Init? then 0 else if r.phase.MasterReading? then done else cfg.workersSet))
    && r.served.written == (if cfg.workersWrite then 0 else
         PerRound(cfg.workersSet, r.iteration - 1, if r.phase.MasterWriting? then done else 0))
    && r.served.memory == 0 && r.served.computed == 0
    && r.messages == PerRound(cfg.workersSet - 1, Delivered(r), 0)
  }

  predicate Blocked(cfg: Config, r: Rank, sender: nat, size: int) {
    r.mpi.current == if r.waiting.OnRecv? then RecvCall(sender, size) else NO_CALL
  }

  predicate MasterOk(cfg: Config, r: Rank) {
    && Progress(cfg, r)
    && MasterPhase(cfg, r)
    && MasterIo(cfg, r)
    && (!r.phase.Init? ==> r.created == !cfg.workersWrite)
    && Blocked(cfg, r, MPI_ANY_SENDER, cfg.ResultSize())
    && Receipts(cfg, r.received, r.iteration)
    && forall k :: 0 <= k < |r.history| ==> |r.history[k]| == cfg.workersSet - 1 && Receipts(cfg, r.history[k], k + 1)
  }

  predicate WorkerPhase(cfg: Config, me: nat, r: Rank) {
    var t := r.totalResponses;
    var data := [AsCall(Data(cfg, me, r.iteration))];
    match r.phase
    case Init =>
      && r.received == []
      && (r.waiting.NotStarted? || r.waiting.Ready? || r.waiting.Finished?
          || (r.waiting == OnIo(Create) && t == 1 && r.created && r.iteration == 1))
      && (r.created ==> cfg.workersWrite) && (r.iteration > 1 ==> r.created == cfg.workersWrite)
    case WorkerReceiving => (r.waiting.OnRecv? && r.received == []) || (r.waiting.Ready? && r.received == data)
    case WorkerReading =>
      r.received == data && (r.waiting.Ready? || (r.waiting == OnIo(Read) && cfg.workersRead && t == 1))
    case WorkerAllocating => r.received == data && (r.waiting.Ready? || r.waiting.OnMem?)
    case WorkerProcessing => r.received == data && (r.waiting.Ready? || r.waiting.OnCpu?)
    case WorkerWriting =>
      r.received == data && (r.waiting.Ready? || (r.waiting == OnIo(Write) && cfg.workersWrite && t == 1))
    case WorkerSendingBack => r.received == data && r.waiting.Ready?
    case _ => false
  }

  /** How far a worker has come in an iteration: one more with each request answered. */
  function WorkDone(r: Rank): nat {
    match r.phase
    case WorkerReading => if r.waiting.OnIo? then 0 else 1
    case WorkerAllocating => if r.waiting.OnMem? then 1 else 2
    case WorkerProcessing => if r.waiting.OnCpu? then 2 else 3
    case WorkerWriting => if r.waiting.OnIo? then 3 else 4
    case WorkerSendingBack => 4
    case _ => 0
  }

  function Past(r: Rank, stage: nat): int {
    r.iteration - 1 + if WorkDone(r) >= stage then 1 else 0
  }

  predicate WorkerIo(cfg: Config, r: Rank) {
    && CreatedOnce(cfg.workersWrite, r)
    && r.served.fetched == (if cfg.workersRead then Past(r, 1) else 0)
    && r.served.memory == Past(r, 2)
    && r.served.computed == Past(r, 3)
    && r.served.written == (if cfg.workersWrite then Past(r, 4) else 0)
    && r.messages == SentBack(r)
  }

  predicate WorkerOk(cfg: Config, me: nat, r: Rank) {
    && Progress(cfg, r)
    && WorkerPhase(cfg, me, r)
    && WorkerIo(cfg, r)
    && (!r.phase.Init? ==> r.created == cfg.workersWrite)
    && Blocked(cfg, r, 0, cfg.DataSize())
    && forall k :: 0 <= k < |r.history| ==> r.history[k] == [AsCall(Data(cfg, me, k + 1))]
  }

  predicate RankOk(cfg: Config, i: nat, r: Rank) {
    if i == 0 then MasterOk(cfg, r) else WorkerOk(cfg, i, r)
  }

  // ---------------------------------------------------------------- what holds between ranks

  /** One token per worker circulates: the master sends, the worker matches, the
      worker sends back, the master matches. */
  predicate Chain(m: Rank, w: Rank, i: nat) {
    Collected(m, i) <= SentBack(w) <= Consumed(w) <= Delivered(m) <= Collected(m, i) + 1
  }

  predicate Token(cfg: Config, g: Group, m: Msg)
    requires |g.ranks| >= 1
  {
    || (1 <= m.dst < |g.ranks| && m == Data(cfg, m.dst, m.iter) && m.iter == Delivered(g.ranks[0])
        && Consumed(g.ranks[m.dst]) < Delivered(g.ranks[0]))
    || (1 <= m.src < |g.ranks| && m == Result(cfg, m.src, m.iter) && m.iter == SentBack(g.ranks[m.src])
        && Collected(g.ranks[0], m.src) < m.iter)
  }

  /** How often a message is in flight or listed at its destination. */
  function Pending(g: Group, m: Msg): nat {
    g.net[m] + if m.dst < |g.ranks| then multiset(g.ranks[m.dst].mpi.list)[AsCall(m)] else 0
  }

  function Back(dst: nat, c: Call): Msg {
    Msg(c.sender, dst, c.size, c.tag)
  }

  predicate Listing(g: Group) {
    forall d, c :: 0 <= d < |g.ranks| && c in g.ranks[d].mpi.list ==> c == AsCall(Back(d, c))
  }

  ghost predicate Tokens(cfg: Config, g: Group)
    requires |g.ranks| >= 1
  {
    forall m :: Pending(g, m) == if Token(cfg, g, m) then 1 else 0
  }

  ghost predicate Core(cfg: Config, g: Group) {
    && cfg.Valid()
    && |g.ranks| == cfg.workersSet
    && (forall i :: 0 <= i < |g.ranks| ==> RankOk(cfg, i, g.ranks[i]))
    && (forall i :: 1 <= i < |g.ranks| ==> Chain(g.ranks[0], g.ranks[i], i))
    && Listing(g)
    && Tokens(cfg, g)
  }

  ghost predicate Inv(cfg: Config, g: Group) {
    Core(cfg, g) && forall i :: 0 <= i < |g.ranks| ==> Starved(g.ranks[i].mpi)
  }

  // ---------------------------------------------------------------- the steps keep it

  /** A step that neither moves a message nor changes where a token is. */
  lemma QuietStep(cfg: Config, g: Group, i: nat, r: Rank)
    requires Core(cfg, g) && i < |g.ranks|
    requires RankOk(cfg, i, r) && r.mpi.list == g.ranks[i].mpi.list
    requires i == 0 ==> Delivered(r) == Delivered(g.ranks[0])
    requires i == 0 ==> forall w :: 1 <= w < |g.ranks| ==> Collected(r, w) == Collected(g.ranks[0], w)
    requires i != 0 ==> Consumed(r) == Consumed(g.ranks[i]) && SentBack(r) == SentBack(g.ranks[i])
    ensures Core(cfg, g.(ranks := g.ranks[i := r]))
  {
    var g' := g.(ranks := g.ranks[i := r]);
    forall m ensures Pending(g', m) == if Token(cfg, g', m) then 1 else 0 {
      assert Pending(g', m) == Pending(g, m);
    }
  }

  lemma ListedIsToken(cfg: Config, g: Group, d: nat, c: Call)
    requires Core(cfg, g) && d < |g.ranks| && c in g.ranks[d].mpi.list
    ensures Token(cfg, g, Back(d, c)) && c == AsCall(Back(d, c))
  {
    assert Pending(g, Back(d, c)) >= 1;
  }

  lemma SameMessage(m: Msg, n: Msg)
    requires AsCall(m) == AsCall(n) && m.dst == n.dst
    ensures m == n
  {
  }

  function Listing1(r: Rank, c: Call): Rank {
    r.(mpi := r.mpi.(list := r.mpi.list + [c]))
  }

  lemma PushPending(g: Group, m: Msg, x: Msg)
    requires m in g.net && m.dst < |g.ranks|
    ensures Pending(Group(g.ranks[m.dst := Listing1(g.ranks[m.dst], AsCall(m))], g.net - multiset{m}), x)
         == Pending(g, x)
  {
    if x != m && x.dst == m.dst && AsCall(x) == AsCall(m) {
      SameMessage(x, m);
    }
  }

  lemma MasterMayList(cfg: Config, r: Rank, c: Call)
    requires MasterOk(cfg, r)
    ensures MasterOk(cfg, Listing1(r, c))
  {
  }

  lemma WorkerMayList(cfg: Config, i: nat, r: Rank, c: Call)
    requires WorkerOk(cfg, i, r)
    ensures WorkerOk(cfg, i, Listing1(r, c))
  {
  }

  lemma ListingIsLocal(r: Rank, c: Call)
    ensures Delivered(Listing1(r, c)) == Delivered(r) && Consumed(Listing1(r, c)) == Consumed(r)
    ensures SentBack(Listing1(r, c)) == SentBack(r)
    ensures forall w :: Collected(Listing1(r, c), w) == Collected(r, w)
  {
  }

  /** The network puts a message in the list of its destination. */
  lemma PushStep(cfg: Config, g: Group, m: Msg)
    requires Core(cfg, g) && m in g.net && m.dst < |g.ranks|
    ensures Core(cfg, Group(g.ranks[m.dst := Listing1(g.ranks[m.dst], AsCall(m))], g.net - multiset{m}))
  {
    var c := AsCall(m);
    var r := Listing1(g.ranks[m.dst], c);
    var g' := Group(g.ranks[m.dst := r], g.net - multiset{m});
    assert c == AsCall(Back(m.dst, c)) by {
      assert Pending(g, m) >= 1;
    }
    assert Listing(g') by {
      forall d, x | 0 <= d < |g'.ranks| && x in g'.ranks[d].mpi.list ensures x == AsCall(Back(d, x)) {
        assert x in g.ranks[d].mpi.list || (d == m.dst && x == c);
      }
    }
    ListingIsLocal(g.ranks[m.dst], c);
    if m.dst == 0 { MasterMayList(cfg, g.ranks[0], c); } else { WorkerMayList(cfg, m.dst, g.ranks[m.dst], c); }
    assert Tokens(cfg, g') by {
      forall x ensures Pending(g', x) == if Token(cfg, g', x) then 1 else 0 {
        PushPending(g, m, x);
        assert Pending(g, x) == if Token(cfg, g, x) then 1 else 0;
      }
    }
  }

  lemma GotMore(r: Rank, c: Call, w: nat)
    ensures Got(r.(received := r.received + [c]), w) <==> Got(r, w) || c.sender == w
  {
    var r' := r.(received := r.received + [c]);
    if c.sender == w {
      assert r'.received[|r.received|].sender == w;
    }
    if Got(r, w) {
      var i :| 0 <= i < |r.received| && r.received[i].sender == w;
      assert r'.received[i].sender == w;
    }
  }

  predicate TakesOut(r: Rank, r': Rank, c: Call) {
    && c in r.mpi.list
    && r' == r.(mpi := r'.mpi, waiting := Ready, received := r.received + [c])
    && r'.mpi.current == NO_CALL
    && multiset(r'.mpi.list) == multiset(r.mpi.list) - multiset{c}
  }

  lemma PendingAfterMatch(cfg: Config, g: Group, i: nat, r': Rank, c: Call)
    requires Core(cfg, g) && i < |g.ranks| && TakesOut(g.ranks[i], r', c)
    ensures var g' := g.(ranks := g.ranks[i := r']);
            && Listing(g')
            && forall m :: Pending(g', m) == if m == Back(i, c) then 0 else Pending(g, m)
  {
    var g' := g.(ranks := g.ranks[i := r']);
    ListedIsToken(cfg, g, i, c);
    assert Pending(g, Back(i, c)) == 1;
    forall m ensures Pending(g', m) == if m == Back(i, c) then 0 else Pending(g, m) {
      if m.dst == i && AsCall(m) == c {
        SameMessage(m, Back(i, c));
      }
    }
    forall d, x | 0 <= d < |g'.ranks| && x in g'.ranks[d].mpi.list ensures x == AsCall(Back(d, x)) {
      if d == i {
        assert x in multiset(r'.mpi.list);
      }
    }
  }

  lemma WorkerTakes(cfg: Config, i: nat, r: Rank, r': Rank, c: Call)
    requires i != 0 && WorkerOk(cfg, i, r) && r.waiting.OnRecv? && TakesOut(r, r', c)
        && c == AsCall(Data(cfg, i, r.iteration))
    ensures WorkerOk(cfg, i, r') && Consumed(r') == Consumed(r) + 1 && SentBack(r') == SentBack(r)
  {
  }

  lemma WorkerMatch(cfg: Config, g: Group, i: nat, r': Rank, c: Call)
    requires Core(cfg, g) && 1 <= i < |g.ranks| && g.ranks[i].waiting.OnRecv? && TakesOut(g.ranks[i], r', c)
    ensures Core(cfg, g.(ranks := g.ranks[i := r']))
  {
    var g' := g.(ranks := g.ranks[i := r']);
    ListedIsToken(cfg, g, i, c);
    PendingAfterMatch(cfg, g, i, r', c);
    WorkerTakes(cfg, i, g.ranks[i], r', c);
    forall m ensures Pending(g', m) == if Token(cfg, g', m) then 1 else 0 {
      assert Pending(g, m) == if Token(cfg, g, m) then 1 else 0;
    }
  }

  lemma MasterTakes(cfg: Config, r: Rank, r': Rank, c: Call)
    requires MasterOk(cfg, r) && r.waiting.OnRecv? && TakesOut(r, r', c)
    requires 1 <= c.sender < cfg.workersSet && c == AsCall(Result(cfg, c.sender, r.iteration)) && !Got(r, c.sender)
    ensures MasterOk(cfg, r') && Delivered(r') == Delivered(r)
    ensures forall v :: Collected(r', v) == if v == c.sender then Collected(r, v) + 1 else Collected(r, v)
  {
    forall v ensures Got(r', v) <==> Got(r, v) || v == c.sender {
      GotMore(r, c, v);
    }
  }

  lemma MasterMatch(cfg: Config, g: Group, r': Rank, c: Call)
    requires Core(cfg, g) && g.ranks[0].waiting.OnRecv? && TakesOut(g.ranks[0], r', c)
    ensures Core(cfg, g.(ranks := g.ranks[0 := r']))
  {
    var g' := g.(ranks := g.ranks[0 := r']);
    var r := g.ranks[0];
    ListedIsToken(cfg, g, 0, c);
    PendingAfterMatch(cfg, g, 0, r', c);
    assert Chain(r, g.ranks[c.sender], c.sender);
    assert Back(0, c) == Result(cfg, c.sender, r.iteration);
    MasterTakes(cfg, r, r', c);
    forall m ensures Pending(g', m) == if Token(cfg, g', m) then 1 else 0 {
      assert Pending(g, m) == if Token(cfg, g, m) then 1 else 0;
      assert Token(cfg, g', m) == (Token(cfg, g, m) && m != Back(0, c));
    }
  }

  /** synchronize() run by rank i: the only place where calls are matched. */
  lemma SyncStep(cfg: Config, g: Group, i: nat)
    requires Core(cfg, g) && i < |g.ranks|
    ensures var r' := Matched(g.ranks[i], Synchronize(g.ranks[i].mpi));
            Core(cfg, g.(ranks := g.ranks[i := r'])) && Starved(r'.mpi)
  {
    var r := g.ranks[i];
    var s := Synchronize(r.mpi);
    SynchronizeStarves(r.mpi);
    if s.matched.Some? {
      if i == 0 {
        MasterMatch(cfg, g, Matched(r, s), s.matched.value);
      } else {
        WorkerMatch(cfg, g, i, Matched(r, s), s.matched.value);
      }
    } else {
      assert g.(ranks := g.ranks[i := r]) == g;
    }
  }

  lemma {:induction false} DataRoundCount(cfg: Config, n: nat, iter: nat, m: Msg)
    ensures multiset(DataRound(cfg, n, iter))[m] == if 1 <= m.dst < n && m == Data(cfg, m.dst, iter) then 1 else 0
  {
    if n > 1 {
      DataRoundCount(cfg, n - 1, iter, m);
    }
  }

  lemma {:induction false} DataRoundSize(cfg: Config, n: nat, iter: nat)
    ensures |DataRound(cfg, n, iter)| == if n <= 1 then 0 else n - 1
  {
    if n > 1 { DataRoundSize(cfg, n - 1, iter); }
  }

  lemma OneMoreRound(n: int, rounds: int)
    ensures PerRound(n, rounds, n) == PerRound(n, rounds + 1, 0)
  {
  }

  lemma MasterDelivers(cfg: Config, r: Rank)
    requires cfg.Valid() && MasterOk(cfg, r) && r.waiting.Ready? && r.phase.MasterReading? && r.totalResponses == 0
    ensures var e := NextState(cfg, 0, r);
            && MasterOk(cfg, e.rank) && e.rank.mpi == r.mpi && e.sent == DataRound(cfg, cfg.workersSet, r.iteration)
            && Delivered(r) == r.iteration - 1 && Delivered(e.rank) == r.iteration
            && forall w :: Collected(r, w) == Collected(e.rank, w) == r.iteration - 1
  {
    DataRoundSize(cfg, cfg.workersSet, r.iteration);
    OneMoreRound(cfg.workersSet - 1, r.iteration - 1);
  }

  /** A closed chain: with no round outstanding there is no token and so no message. */
  lemma NoTokens(cfg: Config, g: Group, m: Msg)
    requires Core(cfg, g) && forall w :: 1 <= w < |g.ranks| ==> Collected(g.ranks[0], w) == Delivered(g.ranks[0])
    ensures !Token(cfg, g, m) && Pending(g, m) == 0
  {
    if 1 <= m.dst < |g.ranks| { assert Chain(g.ranks[0], g.ranks[m.dst], m.dst); }
    if 1 <= m.src < |g.ranks| { assert Chain(g.ranks[0], g.ranks[m.src], m.src); }
  }

  /** deliverData(): one data message for every worker. */
  lemma DeliverStep(cfg: Config, g: Group)
    requires Core(cfg, g) && g.ranks[0].waiting.Ready? && g.ranks[0].phase.MasterReading?
        && g.ranks[0].totalResponses == 0
    ensures Core(cfg, Apply(cfg, g, Run(0))) && Starved(Apply(cfg, g, Run(0)).ranks[0].mpi)
  {
    var r := g.ranks[0];
    assert RankOk(cfg, 0, r);
    MasterDelivers(cfg, r);
    var e := NextState(cfg, 0, r);
    var g' := Group(g.ranks[0 := e.rank], g.net + multiset(e.sent));
    assert g' == Apply(cfg, g, Run(0));
    forall w | 1 <= w < |g.ranks| ensures Chain(e.rank, g.ranks[w], w) {
      assert Chain(r, g.ranks[w], w);
    }
    forall m ensures Pending(g', m) == if Token(cfg, g', m) then 1 else 0 {
      NoTokens(cfg, g, m);
      DataRoundCount(cfg, cfg.workersSet, r.iteration, m);
      if 1 <= m.src < |g.ranks| { assert Chain(r, g.ranks[m.src], m.src); }
      if 1 <= m.dst < |g.ranks| { assert Chain(r, g.ranks[m.dst], m.dst); }
    }
  }

  lemma WorkerSendsBack(cfg: Config, i: nat, r: Rank)
    requires cfg.Valid() && i != 0 && WorkerOk(cfg, i, r) && r.waiting.Ready? && r.phase.WorkerWriting?
    ensures var e := NextState(cfg, i, r);
            && WorkerOk(cfg, i, e.rank) && e.rank.mpi.list == r.mpi.list && e.sent == [Result(cfg, i, r.iteration)]
            && Consumed(r) == Consumed(e.rank) == r.iteration && SentBack(r) == r.iteration - 1
            && SentBack(e.rank) == r.iteration
  {
  }

  /** sendResults(): the worker's one result goes back. */
  lemma SendBackStep(cfg: Config, g: Group, i: nat)
    requires Core(cfg, g) && 1 <= i < |g.ranks| && g.ranks[i].waiting.Ready? && g.ranks[i].phase.WorkerWriting?
    ensures Core(cfg, Apply(cfg, g, Run(i)))
  {
    var r := g.ranks[i];
    assert RankOk(cfg, i, r);
    WorkerSendsBack(cfg, i, r);
    var e, sent := NextState(cfg, i, r), Result(cfg, i, r.iteration);
    var g' := Group(g.ranks[i := e.rank], g.net + multiset{sent});
    assert g' == Apply(cfg, g, Run(i)) && Chain(g.ranks[0], r, i);
    forall m ensures Pending(g', m) == if Token(cfg, g', m) then 1 else 0 {
      assert Pending(g, m) == if Token(cfg, g, m) then 1 else 0;
    }
  }

  function Posted(r: Rank, sender: nat, size: int): Rank {
    r.(waiting := OnRecv, mpi := r.mpi.(current := RecvCall(sender, size)))
  }

  lemma PostStep(cfg: Config, g: Group, i: nat, r: Rank, sender: nat, size: int)
    requires Core(cfg, g) && i < |g.ranks|
    requires RankOk(cfg, i, Posted(r, sender, size)) && r.mpi.list == g.ranks[i].mpi.list
    requires i == 0 ==> Delivered(r) == Delivered(g.ranks[0])
    requires i == 0 ==> r.iteration == g.ranks[0].iteration && r.received == g.ranks[0].received
    requires i != 0 ==> Consumed(r) == Consumed(g.ranks[i]) && SentBack(r) == SentBack(g.ranks[i])
    ensures Core(cfg, g.(ranks := g.ranks[i := PostRecv(r, sender, size)]))
    ensures Starved(PostRecv(r, sender, size).mpi)
  {
    var q := Posted(r, sender, size);
    QuietStep(cfg, g, i, q);
    var g1 := g.(ranks := g.ranks[i := q]);
    SyncStep(cfg, g1, i);
    assert Matched(q, Synchronize(q.mpi)) == PostRecv(r, sender, size);
    assert g1.ranks[i := PostRecv(r, sender, size)] == g.ranks[i := PostRecv(r, sender, size)];
  }

  function Senders(cs: seq<Call>): set<nat> {
    set i | 0 <= i < |cs| :: cs[i].sender
  }

  lemma {:induction false} DistinctSenders(cs: seq<Call>)
    requires forall i, j :: 0 <= i < j < |cs| ==> cs[i].sender != cs[j].sender
    ensures |Senders(cs)| == |cs|
  {
    if cs != [] {
      var k := |cs| - 1;
      DistinctSenders(cs[..k]);
      SendersSnoc(cs[..k], cs[k]);
      assert cs == cs[..k] + [cs[k]];
    }
  }

  lemma SendersSnoc(cs: seq<Call>, c: Call)
    ensures Senders(cs + [c]) == Senders(cs) + {c.sender}
  {
    forall w | w in Senders(cs) ensures w in Senders(cs + [c]) {
      var i :| 0 <= i < |cs| && cs[i].sender == w;
      assert (cs + [c])[i].sender == w;
    }
    assert (cs + [c])[|cs|].sender == c.sender;
  }

  lemma {:induction false} RangeSize(n: nat) returns (workers: set<nat>)
    requires n >= 1
    ensures |workers| == n - 1
    ensures forall w :: w in workers <==> 1 <= w < n
  {
    if n == 1 {
      workers := {};
    } else {
      var rest := RangeSize(n - 1);
      workers := rest + {n - 1};
    }
  }

  /** workersSet - 1 results with distinct senders come from every worker; with fewer, one is missing. */
  lemma EveryWorkerOrOneMissing(cfg: Config, r: Rank)
    requires cfg.Valid() && Receipts(cfg, r.received, r.iteration)
    ensures |r.received| <= cfg.workersSet - 1
    ensures |r.received| == cfg.workersSet - 1 ==> forall w :: 1 <= w < cfg.workersSet ==> Got(r, w)
    ensures |r.received| < cfg.workersSet - 1 ==> exists w :: 1 <= w < cfg.workersSet && !Got(r, w)
  {
    var senders := Senders(r.received);
    DistinctSenders(r.received);
    var workers := RangeSize(cfg.workersSet);
    assert senders <= workers;
    assert forall w :: w in senders <==> Got(r, w);
    assert |workers - senders| == |workers| - |senders|;
    if |senders| < |workers| {
      var w :| w in workers - senders;
      assert 1 <= w < cfg.workersSet && !Got(r, w);
    } else {
      assert workers - senders == {};
      forall w | 1 <= w < cfg.workersSet ensures Got(r, w) {
        assert w in workers;
        assert w !in workers - senders;
      }
    }
  }

  /** nextIteration() on the master: the results of the closed iteration stay accounted for. */
  lemma MasterCloses(cfg: Config, r: Rank)
    requires cfg.Valid() && MasterOk(cfg, r) && r.waiting.Ready? && r.phase.MasterWriting? && r.totalResponses == 0
    ensures MasterOk(cfg, NextIteration(cfg, r))
    ensures Delivered(NextIteration(cfg, r)) == Delivered(r)
    ensures forall w :: 1 <= w < cfg.workersSet ==> Collected(NextIteration(cfg, r), w) == Collected(r, w)
  {
    var r' := NextIteration(cfg, r);
    EveryWorkerOrOneMissing(cfg, r);
    assert r'.iteration == r.iteration + 1;
    assert PerRound(cfg.workersSet, r.iteration - 1, cfg.workersSet) == PerRound(cfg.workersSet, r'.iteration - 1, 0);
    forall k | 0 <= k < |r'.history|
      ensures |r'.history[k]| == cfg.workersSet - 1 && Receipts(cfg, r'.history[k], k + 1)
    {
      if k < |r.history| { assert r'.history[k] == r.history[k]; }
    }
  }

  lemma WorkerCloses(cfg: Config, me: nat, r: Rank)
    requires cfg.Valid() && WorkerOk(cfg, me, r) && r.waiting.Ready? && r.phase.WorkerSendingBack?
    ensures WorkerOk(cfg, me, NextIteration(cfg, r))
    ensures Consumed(NextIteration(cfg, r)) == Consumed(r) && SentBack(NextIteration(cfg, r)) == SentBack(r)
  {
    var r' := NextIteration(cfg, r);
    assert r'.iteration == r.iteration + 1;
    forall k | 0 <= k < |r'.history| ensures r'.history[k] == [AsCall(Data(cfg, me, k + 1))] {
      if k < |r.history| { assert r'.history[k] == r.history[k]; }
    }
  }

  /** The branches of calculateNextState() in which the master talks to the file system only. */
  predicate MasterAlone(cfg: Config, r: Rank) {
    r.phase.Init? || (r.phase.MasterReading? && r.totalResponses > 0)
    || (r.phase.MasterWaiting? && r.totalResponses == 1) || (r.phase.MasterWriting? && r.totalResponses > 0)
  }

  lemma MasterIsAlone(cfg: Config, r: Rank)
    requires cfg.Valid() && MasterOk(cfg, r) && r.waiting.Ready? && MasterAlone(cfg, r)
    ensures var e := NextState(cfg, 0, r);
            && e.sent == [] && MasterOk(cfg, e.rank) && e.rank.mpi == r.mpi
            && e.rank.iteration == r.iteration && e.rank.received == r.received && Delivered(e.rank) == Delivered(r)
  {
  }

  lemma MasterPosts(cfg: Config, r: Rank)
    requires cfg.Valid() && MasterOk(cfg, r) && r.waiting.Ready?
    requires r.phase.MasterDelivering? || (r.phase.MasterWaiting? && r.totalResponses > 1)
    ensures var q := r.(phase := MasterWaiting,
                        totalResponses := Dec(if r.phase.MasterDelivering? then cfg.workersSet else r.totalResponses));
            && MasterOk(cfg, Posted(q, MPI_ANY_SENDER, cfg.ResultSize())) && Delivered(q) == Delivered(r)
            && NextState(cfg, 0, r) == Effect(PostRecv(q, MPI_ANY_SENDER, cfg.ResultSize()), [])
  {
  }

  lemma MasterRunsQuietly(cfg: Config, g: Group)
    requires Core(cfg, g) && g.ranks[0].waiting.Ready?
    requires MasterAlone(cfg, g.ranks[0]) || (g.ranks[0].phase.MasterWriting? && g.ranks[0].totalResponses == 0)
    ensures Core(cfg, Apply(cfg, g, Run(0))) && Starved(Apply(cfg, g, Run(0)).ranks[0].mpi)
  {
    var r := g.ranks[0];
    assert RankOk(cfg, 0, r);
    var e := NextState(cfg, 0, r);
    if MasterAlone(cfg, r) {
      MasterIsAlone(cfg, r);
    } else {
      MasterCloses(cfg, r);
      assert e == Effect(NextIteration(cfg, r), []);
    }
    QuietStep(cfg, g, 0, e.rank);
    assert Apply(cfg, g, Run(0)) == g.(ranks := g.ranks[0 := e.rank]);
  }

  lemma MasterRunsPosting(cfg: Config, g: Group)
    requires Core(cfg, g) && g.ranks[0].waiting.Ready?
    requires g.ranks[0].phase.MasterDelivering? || (g.ranks[0].phase.MasterWaiting? && g.ranks[0].totalResponses > 1)
    ensures Core(cfg, Apply(cfg, g, Run(0))) && Starved(Apply(cfg, g, Run(0)).ranks[0].mpi)
  {
    var r := g.ranks[0];
    assert RankOk(cfg, 0, r);
    MasterPosts(cfg, r);
    var q := r.(phase := MasterWaiting,
                totalResponses := Dec(if r.phase.MasterDelivering? then cfg.workersSet else r.totalResponses));
    PostStep(cfg, g, 0, q, MPI_ANY_SENDER, cfg.ResultSize());
    assert Apply(cfg, g, Run(0)) == g.(ranks := g.ranks[0 := PostRecv(q, MPI_ANY_SENDER, cfg.ResultSize())]);
  }

  lemma MasterRuns(cfg: Config, g: Group)
    requires Core(cfg, g) && g.ranks[0].waiting.Ready?
    ensures Core(cfg, Apply(cfg, g, Run(0))) && Starved(Apply(cfg, g, Run(0)).ranks[0].mpi)
  {
    var r := g.ranks[0];
    assert RankOk(cfg, 0, r);
    if r.phase.MasterReading? && r.totalResponses == 0 {
      DeliverStep(cfg, g);
    } else if r.phase.MasterDelivering? || (r.phase.MasterWaiting? && r.totalResponses > 1) {
      MasterRunsPosting(cfg, g);
    } else {
      MasterRunsQuietly(cfg, g);
    }
  }

  lemma WorkerIsAlone(cfg: Config, i: nat, r: Rank)
    requires cfg.Valid() && i != 0 && WorkerOk(cfg, i, r) && r.waiting.Ready?
    requires !r.phase.WorkerWriting? && !r.phase.WorkerSendingBack?
        && !(r.phase.Init? && (r.created || !cfg.workersWrite))
    ensures var e := NextState(cfg, i, r);
            && e.sent == [] && WorkerOk(cfg, i, e.rank) && e.rank.mpi == r.mpi
            && Consumed(e.rank) == Consumed(r) && SentBack(e.rank) == SentBack(r)
  {
  }

  lemma WorkerRunsQuietly(cfg: Config, g: Group, i: nat)
    requires Core(cfg, g) && 1 <= i < |g.ranks| && g.ranks[i].waiting.Ready? && !g.ranks[i].phase.WorkerWriting?
    requires !(g.ranks[i].phase.Init? && (g.ranks[i].created || !cfg.workersWrite))
    ensures Core(cfg, Apply(cfg, g, Run(i))) && Starved(Apply(cfg, g, Run(i)).ranks[i].mpi)
  {
    var r := g.ranks[i];
    assert RankOk(cfg, i, r);
    var e := NextState(cfg, i, r);
    if r.phase.WorkerSendingBack? {
      WorkerCloses(cfg, i, r);
      assert e == Effect(NextIteration(cfg, r), []);
    } else {
      WorkerIsAlone(cfg, i, r);
    }
    QuietStep(cfg, g, i, e.rank);
    assert Apply(cfg, g, Run(i)) == g.(ranks := g.ranks[i := e.rank]);
  }

  lemma WorkerRunsPosting(cfg: Config, g: Group, i: nat)
    requires Core(cfg, g) && 1 <= i < |g.ranks| && g.ranks[i].waiting.Ready?
    requires g.ranks[i].phase.Init? && (g.ranks[i].created || !cfg.workersWrite)
    ensures Core(cfg, Apply(cfg, g, Run(i))) && Starved(Apply(cfg, g, Run(i)).ranks[i].mpi)
  {
    var r := g.ranks[i];
    assert RankOk(cfg, i, r);
    var q := r.(phase := WorkerReceiving);
    assert NextState(cfg, i, r) == Effect(PostRecv(q, 0, cfg.DataSize()), []);
    PostStep(cfg, g, i, q, 0, cfg.DataSize());
    assert Apply(cfg, g, Run(i)) == g.(ranks := g.ranks[i := PostRecv(q, 0, cfg.DataSize())]);
  }

  lemma WorkerRuns(cfg: Config, g: Group, i: nat)
    requires Core(cfg, g) && 1 <= i < |g.ranks| && g.ranks[i].waiting.Ready?
    ensures Core(cfg, Apply(cfg, g, Run(i))) && Starved(Apply(cfg, g, Run(i)).ranks[i].mpi)
  {
    if g.ranks[i].phase.WorkerWriting? {
      SendBackStep(cfg, g, i);
    } else if g.ranks[i].phase.Init? && (g.ranks[i].created || !cfg.workersWrite) {
      WorkerRunsPosting(cfg, g, i);
    } else {
      WorkerRunsQuietly(cfg, g, i);
    }
  }

  lemma AnswerIsQuiet(cfg: Config, i: nat, r: Rank)
    requires cfg.Valid() && RankOk(cfg, i, r) && (r.waiting.OnIo? || r.waiting.OnMem? || r.waiting.OnCpu?)
    ensures var r' := Reply(r, true);
            && RankOk(cfg, i, r') && r'.mpi == r.mpi && r'.received == r.received && r'.iteration == r.iteration
            && Delivered(r') == Delivered(r) && SentBack(r') == SentBack(r)
  {
  }

  lemma AnswerKeeps(cfg: Config, g: Group, i: nat)
    requires Core(cfg, g) && Enabled(g, Answer(i))
    ensures Core(cfg, Apply(cfg, g, Answer(i))) && Starved(Apply(cfg, g, Answer(i)).ranks[i].mpi)
  {
    AnswerIsQuiet(cfg, i, g.ranks[i]);
    QuietStep(cfg, g, i, Reply(g.ranks[i], true));
  }

  lemma ArrivalKeeps(cfg: Config, g: Group, m: Msg)
    requires Core(cfg, g) && Enabled(g, Deliver(m))
    ensures Core(cfg, Apply(cfg, g, Deliver(m))) && Starved(Apply(cfg, g, Deliver(m)).ranks[m.dst].mpi)
  {
    PushStep(cfg, g, m);
    var q := Listing1(g.ranks[m.dst], AsCall(m));
    var g1 := Group(g.ranks[m.dst := q], g.net - multiset{m});
    SyncStep(cfg, g1, m.dst);
    assert Matched(q, Synchronize(q.mpi)) == Receive(g.ranks[m.dst], m);
    assert g1.ranks[m.dst := Receive(g.ranks[m.dst], m)] == g.ranks[m.dst := Receive(g.ranks[m.dst], m)];
  }

  lemma BeginKeeps(cfg: Config, g: Group, i: nat)
    requires Core(cfg, g) && Enabled(g, Begin(i)) && Starved(g.ranks[i].mpi)
    ensures Core(cfg, Apply(cfg, g, Begin(i))) && Starved(Apply(cfg, g, Begin(i)).ranks[i].mpi)
  {
    QuietStep(cfg, g, i, g.ranks[i].(waiting := Ready));
  }

  lemma StepKeeps(cfg: Config, g: Group, step: Step)
    requires Inv(cfg, g) && Enabled(g, step)
    ensures Inv(cfg, Apply(cfg, g, step))
  {
    match step
    case Begin(i) => BeginKeeps(cfg, g, i);
    case Run(i) => if i == 0 { MasterRuns(cfg, g); } else { WorkerRuns(cfg, g, i); }
    case Answer(i) => AnswerKeeps(cfg, g, i);
    case Deliver(m) => ArrivalKeeps(cfg, g, m);
  }

  lemma InitialIsGood(cfg: Config, g: Group)
    requires cfg.Valid() && Initial(cfg, g)
    ensures Inv(cfg, g)
  {
    assert PerRound(cfg.workersSet, 0, 0) == 0;
    forall i | 0 <= i < |g.ranks| ensures RankOk(cfg, i, g.ranks[i]) {
      assert InitialRank(g.ranks[i]);
    }
    forall m ensures Pending(g, m) == if Token(cfg, g, m) then 1 else 0 {
    }
  }

  lemma {:induction false} RunKeeps(cfg: Config, states: seq<Group>, steps: seq<Step>, k: nat)
    requires cfg.Valid() && IsRun(cfg, states, steps) && k < |states|
    ensures Inv(cfg, states[k])
  {
    if k == 0 {
      InitialIsGood(cfg, states[0]);
    } else {
      RunKeeps(cfg, states, steps, k - 1);
      StepKeeps(cfg, states[k - 1], steps[k - 1]);
    }
  }
}
