/** Every run of a group ends: a natural number falls with each step. */
module HpcTermination {
  import opened Matching
  import opened Hpc
  import opened HpcGroup
  import opened HpcTheorems

  /** What is left of the current iteration of the master. */
  function MasterStage(cfg: Config, r: Rank): int {
    var t, w := r.totalResponses, cfg.workersSet;
    match r.phase
    case Init =>
      if r.waiting.NotStarted? then 7 * w + 4
      else if r.waiting.OnIo? then 7 * w + 2
      else if !r.created && !cfg.workersWrite then 7 * w + 3 else 7 * w + 1
    case MasterReading => if r.waiting.OnIo? then 5 * w + 2 * t else 5 * w + 2 * t + 1
    case MasterDelivering => 4 * w + 1
    case MasterWaiting => if r.waiting.OnRecv? then 2 * w + 2 * t + 2 else 2 * w + 2 * t + 1
    case MasterWriting => if r.waiting.OnIo? then 2 * t else 2 * t + 1
    case _ => 0
  }

  function WorkerStage(cfg: Config, r: Rank): int {
    match r.phase
    case Init =>
      if r.waiting.NotStarted? then 16
      else if r.waiting.OnIo? then 14
      else if !r.created && cfg.workersWrite then 15 else 13
    case WorkerReceiving => if r.waiting.OnRecv? then 12 else 11
    case WorkerReading => if r.waiting.OnIo? then 10 else 9
    case WorkerAllocating => if r.waiting.OnMem? then 8 else 7
    case WorkerProcessing => if r.waiting.OnCpu? then 6 else 5
    case WorkerWriting => if r.waiting.OnIo? then 4 else 3
    case WorkerSendingBack => 1
    case _ => 0
  }

  function Budget(cfg: Config, i: nat): int {
    if i == 0 then 7 * cfg.workersSet + 5 else 17
  }

  /** n * k for natural n. */
  function Times(n: int, k: int): int
    decreases if n < 0 then 0 else n
  {
    if n <= 0 then 0 else Times(n - 1, k) + k
  }

  lemma {:induction false} TimesIsProduct(n: nat, k: int)
    ensures Times(n, k) == n * k
    ensures k >= 0 ==> Times(n, k) >= 0
  {
    if n > 0 { TimesIsProduct(n - 1, k); }
  }

  function Work(cfg: Config, i: nat, r: Rank): int {
    if r.waiting.Finished? then 0
    else Times(cfg.Rounds() - r.iteration, Budget(cfg, i)) + if i == 0 then MasterStage(cfg, r) else WorkerStage(cfg, r)
  }

  function TotalWork(cfg: Config, ranks: seq<Rank>): int {
    if ranks == [] then 0
    else TotalWork(cfg, ranks[..|ranks| - 1]) + Work(cfg, |ranks| - 1, ranks[|ranks| - 1])
  }

  function Measure(cfg: Config, g: Group): int {
    TotalWork(cfg, g.ranks) + |g.net|
  }

  lemma {:induction false} TotalWorkUpdate(cfg: Config, ranks: seq<Rank>, i: nat, r: Rank)
    requires i < |ranks|
    ensures TotalWork(cfg, ranks[i := r]) - TotalWork(cfg, ranks) == Work(cfg, i, r) - Work(cfg, i, ranks[i])
  {
    var n := |ranks| - 1;
    if i == n {
      assert ranks[i := r][..n] == ranks[..n];
    } else {
      assert ranks[i := r][..n] == ranks[..n][i := r];
      TotalWorkUpdate(cfg, ranks[..n], i, r);
    }
  }

  lemma StagesAreNat(cfg: Config, i: nat, r: Rank)
    requires cfg.Valid() && RankOk(cfg, i, r) && !r.waiting.Finished?
    ensures 1 <= r.iteration <= cfg.Rounds()
    ensures i == 0 ==> 0 <= MasterStage(cfg, r)
    ensures i != 0 ==> 0 <= WorkerStage(cfg, r)
  {
  }

  lemma WorkIsNat(cfg: Config, i: nat, r: Rank)
    requires cfg.Valid() && RankOk(cfg, i, r)
    ensures 0 <= Work(cfg, i, r)
  {
    if !r.waiting.Finished? {
      StagesAreNat(cfg, i, r);
      TimesIsProduct(cfg.Rounds() - r.iteration, Budget(cfg, i));
    }
  }

  lemma {:induction false} TotalWorkIsNat(cfg: Config, ranks: seq<Rank>)
    requires cfg.Valid() && forall i :: 0 <= i < |ranks| ==> RankOk(cfg, i, ranks[i])
    ensures 0 <= TotalWork(cfg, ranks)
  {
    if ranks != [] {
      TotalWorkIsNat(cfg, ranks[..|ranks| - 1]);
      WorkIsNat(cfg, |ranks| - 1, ranks[|ranks| - 1]);
    }
  }

  lemma IterationInRange(cfg: Config, i: nat, r: Rank)
    requires RankOk(cfg, i, r)
    ensures 1 <= r.iteration <= cfg.Rounds() + 1 && (r.waiting.Finished? <==> r.iteration == cfg.Rounds() + 1)
  {
  }

  /** A new iteration costs less than the one just closed. */
  lemma NextIterationPays(cfg: Config, i: nat, r: Rank)
    requires cfg.Valid() && RankOk(cfg, i, r) && r.waiting.Ready?
    requires i == 0 ==> r.phase.MasterWriting?
    requires i != 0 ==> r.phase.WorkerSendingBack?
    ensures Work(cfg, i, NextIteration(cfg, r)) < Work(cfg, i, r)
  {
    var left := cfg.Rounds() - r.iteration;
    IterationInRange(cfg, i, r);
    TimesIsProduct(left, Budget(cfg, i));
  }

  lemma MasterPays(cfg: Config, r: Rank)
    requires cfg.Valid() && MasterOk(cfg, r) && r.waiting.Ready?
    ensures var e := NextState(cfg, 0, r); Work(cfg, 0, e.rank) + |e.sent| < Work(cfg, 0, r)
  {
    DataRoundSize(cfg, cfg.workersSet, r.iteration);
    if r.phase.MasterWriting? && r.totalResponses == 0 {
      NextIterationPays(cfg, 0, r);
    }
  }

  lemma WorkerPays(cfg: Config, i: nat, r: Rank)
    requires cfg.Valid() && i != 0 && WorkerOk(cfg, i, r) && r.waiting.Ready?
    ensures var e := NextState(cfg, i, r); Work(cfg, i, e.rank) + |e.sent| < Work(cfg, i, r)
  {
    if r.phase.WorkerSendingBack? {
      NextIterationPays(cfg, i, r);
    }
  }

  lemma OnlyBlockedMatch(cfg: Config, i: nat, r: Rank, c: Call)
    requires RankOk(cfg, i, r)
    ensures Arrive(r.mpi, c).matched.Some? ==> r.waiting.OnRecv?
  {
    assert r.mpi.current == NO_CALL || r.waiting.OnRecv?;
  }

  /** A rank that leaves a receive has come closer to the end. */
  lemma ResumingIsFree(cfg: Config, i: nat, r: Rank, s: Rank)
    requires r.waiting.OnRecv? && s.waiting.Ready?
    requires s.phase == r.phase && s.iteration == r.iteration && s.created == r.created
    requires s.totalResponses == r.totalResponses
    requires r.phase.MasterWaiting? || r.phase.WorkerReceiving?
    ensures Work(cfg, i, s) <= Work(cfg, i, r)
  {
  }

  lemma ReceivesInPhase(cfg: Config, i: nat, r: Rank)
    requires RankOk(cfg, i, r) && r.waiting.OnRecv?
    ensures r.phase.MasterWaiting? || r.phase.WorkerReceiving?
  {
  }

  lemma ListingIsFree(cfg: Config, i: nat, r: Rank, mpi: Mpi)
    ensures Work(cfg, i, r.(mpi := mpi)) == Work(cfg, i, r)
  {
  }

  lemma ReceiveIsFree(cfg: Config, i: nat, r: Rank, m: Msg)
    requires cfg.Valid() && RankOk(cfg, i, r)
    ensures Work(cfg, i, Receive(r, m)) <= Work(cfg, i, r)
  {
    var s := Arrive(r.mpi, AsCall(m));
    OnlyBlockedMatch(cfg, i, r, AsCall(m));
    if s.matched.Some? {
      ReceivesInPhase(cfg, i, r);
      ResumingIsFree(cfg, i, r, Receive(r, m));
    } else {
      ListingIsFree(cfg, i, r, s.mpi);
    }
  }

  lemma RunningPays(cfg: Config, i: nat, r: Rank)
    requires cfg.Valid() && RankOk(cfg, i, r) && r.waiting.Ready?
    ensures var e := NextState(cfg, i, r); Work(cfg, i, e.rank) + |e.sent| < Work(cfg, i, r)
  {
    if i == 0 { MasterPays(cfg, r); } else { WorkerPays(cfg, i, r); }
  }

  lemma AnswerPays(cfg: Config, i: nat, r: Rank)
    requires cfg.Valid() && RankOk(cfg, i, r)
    ensures r.waiting.NotStarted? ==> Work(cfg, i, r.(waiting := Ready)) < Work(cfg, i, r)
    ensures r.waiting.OnIo? || r.waiting.OnMem? || r.waiting.OnCpu? ==> Work(cfg, i, Reply(r, true)) < Work(cfg, i, r)
  {
  }

  lemma RanksOk(cfg: Config, g: Group)
    requires Inv(cfg, g)
    ensures cfg.Valid() && forall i :: 0 <= i < |g.ranks| ==> RankOk(cfg, i, g.ranks[i])
  {
  }

  /** Each step of a group lowers the measure. */
  lemma StepPays(cfg: Config, g: Group, step: Step)
    requires cfg.Valid() && (forall i :: 0 <= i < |g.ranks| ==> RankOk(cfg, i, g.ranks[i])) && Enabled(g, step)
    ensures Measure(cfg, Apply(cfg, g, step)) < Measure(cfg, g)
  {
    var i := if step.Deliver? then step.msg.dst else step.rank;
    var r := g.ranks[i];
    match step
    case Begin(_) =>
      AnswerPays(cfg, i, r);
      TotalWorkUpdate(cfg, g.ranks, i, r.(waiting := Ready));
    case Run(_) =>
      RunningPays(cfg, i, r);
      var e := NextState(cfg, i, r);
      TotalWorkUpdate(cfg, g.ranks, i, e.rank);
      assert |g.net + multiset(e.sent)| == |g.net| + |e.sent|;
    case Answer(_) =>
      AnswerPays(cfg, i, r);
      TotalWorkUpdate(cfg, g.ranks, i, Reply(r, true));
    case Deliver(m) =>
      ReceiveIsFree(cfg, i, r, m);
      TotalWorkUpdate(cfg, g.ranks, i, Receive(r, m));
      assert |g.net - multiset{m}| == |g.net| - 1;
  }

  lemma RunRanksOk(cfg: Config, states: seq<Group>, steps: seq<Step>, k: nat)
    requires cfg.Valid() && IsRun(cfg, states, steps) && k < |states|
    ensures forall i :: 0 <= i < |states[k].ranks| ==> RankOk(cfg, i, states[k].ranks[i])
  {
    RunKeeps(cfg, states, steps, k);
    RanksOk(cfg, states[k]);
  }

  lemma RunStepPays(cfg: Config, states: seq<Group>, steps: seq<Step>, k: nat)
    requires cfg.Valid() && IsRun(cfg, states, steps) && k < |steps|
    ensures Measure(cfg, states[k + 1]) < Measure(cfg, states[k])
  {
    RunRanksOk(cfg, states, steps, k);
    StepPays(cfg, states[k], steps[k]);
  }

  lemma {:induction false} Falls(ms: seq<int>, k: nat)
    requires k < |ms| && forall i :: 0 < i < |ms| ==> ms[i] < ms[i - 1]
    ensures ms[k] + k <= ms[0]
  {
    if k > 0 { Falls(ms, k - 1); }
  }

  lemma RunPays(cfg: Config, states: seq<Group>, steps: seq<Step>)
    requires cfg.Valid() && IsRun(cfg, states, steps)
    ensures Measure(cfg, states[|steps|]) + |steps| <= Measure(cfg, states[0])
  {
    var ms := seq(|states|, i requires 0 <= i < |states| => Measure(cfg, states[i]));
    forall i | 0 < i < |ms| ensures ms[i] < ms[i - 1] {
      RunStepPays(cfg, states, steps, i - 1);
    }
    Falls(ms, |steps|);
  }

  lemma {:induction false} InitialWork(cfg: Config, ranks: seq<Rank>)
    requires forall i :: 0 <= i < |ranks| ==> InitialRank(ranks[i])
    requires cfg.Valid() && 1 <= |ranks|
    ensures TotalWork(cfg, ranks) <= Times(cfg.Rounds(), 7 * cfg.workersSet + 5)
                                     + Times(|ranks| - 1, Times(cfg.Rounds(), 17))
  {
    var n := |ranks| - 1;
    var left := cfg.Rounds() - 1;
    assert InitialRank(ranks[n]);
    assert Times(left, Budget(cfg, n)) + Budget(cfg, n) == Times(cfg.Rounds(), Budget(cfg, n));
    if n == 0 {
      assert ranks[..0] == [];
    } else {
      InitialWork(cfg, ranks[..n]);
      assert Times(n, Times(cfg.Rounds(), 17)) == Times(n - 1, Times(cfg.Rounds(), 17)) + Times(cfg.Rounds(), 17);
    }
  }

  lemma Spread(n: int, w: int, a: int, b: int)
    ensures n * (a * w + b) == a * (n * w) + b * n
  {
  }

  lemma Reorder(n: int, w: int)
    ensures (w - 1) * (n * 17) == n * (17 * w - 17)
  {
  }

  lemma Expand(n: int, w: int)
    requires n >= 0 && w >= 1
    ensures Times(n, 7 * w + 5) + Times(w - 1, Times(n, 17)) == n * (24 * w - 12)
  {
    TimesIsProduct(n, 7 * w + 5);
    TimesIsProduct(n, 17);
    TimesIsProduct(w - 1, Times(n, 17));
    Spread(n, w, 7, 5);
    Spread(n, w, 17, -17);
    Spread(n, w, 24, -12);
    Reorder(n, w);
  }

  /** No run of a group is longer than rounds * (24 * workersSet - 12) steps, so
      together with MaximalRunsComplete every run ends with all ranks done. */
  lemma RunsAreBounded(cfg: Config, states: seq<Group>, steps: seq<Step>)
    requires cfg.Valid() && IsRun(cfg, states, steps)
    ensures |steps| <= cfg.Rounds() * (24 * cfg.workersSet - 12)
  {
    RunPays(cfg, states, steps);
    RunRanksOk(cfg, states, steps, |steps|);
    TotalWorkIsNat(cfg, states[|steps|].ranks);
    InitialWork(cfg, states[0].ranks);
    Expand(cfg.Rounds(), cfg.workersSet);
  }

  // ---------------------------------------------------------------- the bound on workersSet is needed

  /** With a group of one the master can only be on its way to, or blocked in, a receive. */
  predicate Alone(cfg: Config, g: Group) {
    && cfg.workersSet == 1 && |g.ranks| == 1 && g.net == multiset{}
    && var r := g.ranks[0];
       && r.iteration == 1 && r.mpi.list == []
       && (r.mpi.current == if r.waiting.OnRecv? then RecvCall(MPI_ANY_SENDER, cfg.ResultSize()) else NO_CALL)
       && (r.phase.Init? || r.phase.MasterReading? || r.phase.MasterDelivering?
           || (r.phase.MasterWaiting? && r.waiting.OnRecv?))
       && !r.waiting.Finished?
  }

  lemma AloneRuns(cfg: Config, g: Group)
    requires Alone(cfg, g) && Enabled(g, Run(0))
    ensures Alone(cfg, Apply(cfg, g, Run(0)))
  {
    assert DataRound(cfg, 1, g.ranks[0].iteration) == [];
  }

  lemma AloneStays(cfg: Config, g: Group, step: Step)
    requires Alone(cfg, g) && Enabled(g, step)
    ensures Alone(cfg, Apply(cfg, g, step))
  {
    match step
    case Begin(i) =>
    case Run(i) => AloneRuns(cfg, g);
    case Answer(i) =>
    case Deliver(m) =>
  }

  /** With workersSet equal to 1 no run finishes: after delivering to nobody the
      master waits for a result that nobody sends. */
  lemma {:induction false} SingletonNeverFinishes(cfg: Config, states: seq<Group>, steps: seq<Step>, k: nat)
    requires cfg.workersSet == 1 && IsRun(cfg, states, steps) && k < |states|
    ensures |states[k].ranks| == 1 && !states[k].ranks[0].waiting.Finished?
    ensures Alone(cfg, states[k])
  {
    if k == 0 {
      assert InitialRank(states[0].ranks[0]);
    } else {
      SingletonNeverFinishes(cfg, states, steps, k - 1);
      AloneStays(cfg, states[k - 1], steps[k - 1]);
    }
  }

  // ---------------------------------------------------------------- and so is the bound on numIterations

  /** The unsigned counter stays below numIterations + 1 for ever. */
  predicate Endless(g: Group) {
    forall i :: 0 <= i < |g.ranks| ==> g.ranks[i].iteration <= UINT_MAX && !g.ranks[i].waiting.Finished?
  }

  lemma RankStaysEndless(cfg: Config, i: nat, r: Rank)
    requires cfg.numIterations >= UINT_MAX && r.iteration <= UINT_MAX && r.waiting.Ready?
    ensures var e := NextState(cfg, i, r); e.rank.iteration <= UINT_MAX && !e.rank.waiting.Finished?
  {
  }

  lemma StaysEndless(cfg: Config, g: Group, step: Step)
    requires cfg.numIterations >= UINT_MAX && Endless(g) && Enabled(g, step)
    ensures Endless(Apply(cfg, g, step)) && |Apply(cfg, g, step).ranks| == |g.ranks|
  {
    if step.Run? { RankStaysEndless(cfg, step.rank, g.ranks[step.rank]); }
  }

  /** The iteration counter never passes the largest unsigned int, so with that many
      iterations asked for (or -1) no rank of any group ever finishes. */
  lemma {:induction false} LargestNeverFinishes(cfg: Config, states: seq<Group>, steps: seq<Step>, k: nat)
    requires cfg.numIterations >= UINT_MAX && IsRun(cfg, states, steps) && k < |states|
    ensures |states[k].ranks| == cfg.workersSet
    ensures forall i :: 0 <= i < cfg.workersSet ==> !states[k].ranks[i].waiting.Finished?
    ensures Endless(states[k])
  {
    if k == 0 {
      assert forall i :: 0 <= i < |states[0].ranks| ==> InitialRank(states[0].ranks[i]);
    } else {
      LargestNeverFinishes(cfg, states, steps, k - 1);
      StaysEndless(cfg, states[k - 1], steps[k - 1]);
    }
  }

  // ---------------------------------------------------------------- exactly when every run ends

  ghost predicate RunsEndWithin(cfg: Config, bound: nat) {
    forall states, steps :: IsRun(cfg, states, steps) ==> |steps| <= bound
  }

  predicate AllFinished(g: Group) {
    forall i :: 0 <= i < |g.ranks| ==> g.ranks[i].waiting.Finished?
  }

  /** Every run ends, and where it cannot go on all ranks have finished. */
  ghost predicate EveryRunCompletes(cfg: Config) {
    && (exists bound: nat :: RunsEndWithin(cfg, bound))
    && (forall g :: Reachable(cfg, g) && Stuck(g) ==> AllFinished(g))
  }

  lemma ExtendRun(cfg: Config, states: seq<Group>, steps: seq<Step>, step: Step)
    requires IsRun(cfg, states, steps) && Enabled(states[|steps|], step)
    ensures IsRun(cfg, states + [Apply(cfg, states[|steps|], step)], steps + [step])
  {
  }

  /** Where runs are bounded, one of them cannot be extended. */
  lemma {:induction false} SomeRunIsMaximal(cfg: Config, bound: nat, states: seq<Group>, steps: seq<Step>)
    returns (last: seq<Group>, all: seq<Step>)
    requires RunsEndWithin(cfg, bound) && IsRun(cfg, states, steps)
    ensures IsRun(cfg, last, all) && Stuck(last[|all|])
    decreases bound - |steps|
  {
    if Stuck(states[|steps|]) {
      last, all := states, steps;
    } else {
      var step :| Enabled(states[|steps|], step);
      ExtendRun(cfg, states, steps, step);
      var states' := states + [Apply(cfg, states[|steps|], step)];
      assert |steps + [step]| <= bound;
      last, all := SomeRunIsMaximal(cfg, bound, states', steps + [step]);
    }
  }

  lemma SomeRunStarts(cfg: Config) returns (states: seq<Group>)
    ensures IsRun(cfg, states, [])
  {
    var r := Rank(Phase.Init, 0, 1, false, NotStarted, Mpi(NO_CALL, NO_CALL, []), NOTHING_SERVED, 0, [], []);
    states := [Group(seq(cfg.workersSet, _ => r), multiset{})];
  }

  lemma CompletingRunFinishes(cfg: Config) returns (states: seq<Group>, steps: seq<Step>)
    requires EveryRunCompletes(cfg)
    ensures IsRun(cfg, states, steps) && AllFinished(states[|steps|])
  {
    var bound: nat :| RunsEndWithin(cfg, bound);
    states := SomeRunStarts(cfg);
    states, steps := SomeRunIsMaximal(cfg, bound, states, []);
    assert Reachable(cfg, states[|steps|]);
  }

  lemma ValidMeansCompletes(cfg: Config)
    requires cfg.Valid()
    ensures EveryRunCompletes(cfg)
  {
    TimesIsProduct(cfg.Rounds(), 24 * cfg.workersSet - 12);
    var bound: nat := cfg.Rounds() * (24 * cfg.workersSet - 12);
    forall states, steps | IsRun(cfg, states, steps) ensures |steps| <= bound {
      RunsAreBounded(cfg, states, steps);
    }
    assert RunsEndWithin(cfg, bound);
    forall g | Reachable(cfg, g) && Stuck(g) ensures AllFinished(g) {
      MaximalRunsComplete(cfg, g);
    }
  }

  lemma SomeRankIsUnfinished(cfg: Config, states: seq<Group>, steps: seq<Step>)
    requires IsRun(cfg, states, steps) && cfg.workersSet >= 1
    requires cfg.workersSet == 1 || cfg.numIterations >= UINT_MAX
    ensures !AllFinished(states[|steps|])
  {
    if cfg.numIterations >= UINT_MAX {
      LargestNeverFinishes(cfg, states, steps, |steps|);
    } else {
      SingletonNeverFinishes(cfg, states, steps, |steps|);
    }
    assert !states[|steps|].ranks[0].waiting.Finished?;
  }

  /** Every run of a group ends with all its ranks finished exactly when there is a
      worker to wait for and the iteration counter can pass numIterations. */
  lemma EveryRunCompletesExactly(cfg: Config)
    requires 1 <= cfg.workersSet <= UINT_MAX
    ensures EveryRunCompletes(cfg) <==> cfg.workersSet >= 2 && cfg.numIterations < UINT_MAX
  {
    if cfg.workersSet >= 2 && cfg.numIterations < UINT_MAX {
      ValidMeansCompletes(cfg);
    } else if EveryRunCompletes(cfg) {
      var states, steps := CompletingRunFinishes(cfg);
      SomeRankIsUnfinished(cfg, states, steps);
    }
  }
}
