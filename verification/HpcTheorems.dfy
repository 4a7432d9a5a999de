/** The promises of the master/worker protocol, over every run of one group. */
module HpcTheorems {
  import opened Matching
  import opened Hpc
  import opened HpcGroup

  ghost predicate Reachable(cfg: Config, g: Group) {
    exists states, steps :: IsRun(cfg, states, steps) && states[|steps|] == g
  }

  lemma ReachableIsGood(cfg: Config, g: Group)
    requires cfg.Valid() && Reachable(cfg, g)
    ensures Inv(cfg, g)
  {
    var states, steps :| IsRun(cfg, states, steps) && states[|steps|] == g;
    RunKeeps(cfg, states, steps, |steps|);
  }

  predicate SentBy(cs: seq<Call>, w: nat) {
    exists i :: 0 <= i < |cs| && cs[i].sender == w
  }

  /** Exactly one result from each worker, all produced in iteration `iter`. */
  predicate FullRound(cfg: Config, cs: seq<Call>, iter: int) {
    && |cs| == cfg.workersSet - 1
    && (forall i :: 0 <= i < |cs| ==> cs[i].tag == iter && cs[i].size == cfg.ResultSize())
    && (forall i, j :: 0 <= i < j < |cs| ==> cs[i].sender != cs[j].sender)
    && (forall w :: 1 <= w < cfg.workersSet ==> SentBy(cs, w))
  }

  /** In every iteration the any-sender receives of the master were matched with one
      result of that iteration from every worker; each worker received its own data. */
  lemma RoundsAreExact(cfg: Config, g: Group, it: nat)
    requires cfg.Valid() && Reachable(cfg, g)
    ensures |g.ranks| == cfg.workersSet
    ensures |g.ranks[0].history| == g.ranks[0].iteration - 1
    ensures it < |g.ranks[0].history| ==> FullRound(cfg, g.ranks[0].history[it], it + 1)
    ensures forall w :: 1 <= w < cfg.workersSet && it < |g.ranks[w].history| ==>
              g.ranks[w].history[it] == [AsCall(Data(cfg, w, it + 1))]
  {
    ReachableIsGood(cfg, g);
    var m := g.ranks[0];
    assert RankOk(cfg, 0, m);
    if it < |m.history| {
      var closed := m.(received := m.history[it], iteration := it + 1);
      EveryWorkerOrOneMissing(cfg, closed);
      forall w | 1 <= w < cfg.workersSet ensures SentBy(m.history[it], w) {
        assert Got(closed, w);
      }
    }
    forall w | 1 <= w < cfg.workersSet && it < |g.ranks[w].history|
      ensures g.ranks[w].history[it] == [AsCall(Data(cfg, w, it + 1))]
    {
      assert RankOk(cfg, w, g.ranks[w]);
    }
  }

  /** Between two events of a worker its iteration is the master's or one more. */
  lemma IterationsInStep(cfg: Config, g: Group, w: nat)
    requires cfg.Valid() && Reachable(cfg, g) && 1 <= w < cfg.workersSet
    ensures |g.ranks| == cfg.workersSet
    ensures !g.ranks[w].waiting.Ready? ==> g.ranks[0].iteration <= g.ranks[w].iteration <= g.ranks[0].iteration + 1
  {
    ReachableIsGood(cfg, g);
    assert RankOk(cfg, w, g.ranks[w]) && RankOk(cfg, 0, g.ranks[0]);
    assert Chain(g.ranks[0], g.ranks[w], w);
  }

  /** The unsigned counter is never decremented at zero and no state check ever throws. */
  lemma NeverBelowZero(cfg: Config, g: Group, i: nat)
    requires cfg.Valid() && Reachable(cfg, g) && i < cfg.workersSet
    ensures |g.ranks| == cfg.workersSet && !g.ranks[i].waiting.Halted?
    ensures g.ranks[i].waiting.OnIo? ==>
              g.ranks[i].totalResponses >= 1 && ReplyExpected(g.ranks[i].phase, g.ranks[i].waiting.op)
    ensures g.ranks[i].phase.MasterWaiting? ==> g.ranks[i].totalResponses >= 1
  {
    ReachableIsGood(cfg, g);
    assert RankOk(cfg, i, g.ranks[i]);
  }

  /** The size of a message is that of the slice, stored in a signed int, or 64 bytes where the
      receiver of the slice does not get it with the message. */
  predicate SizeOf(size: int, sliceKB: nat, elsewhere: bool) {
    if elsewhere then size == 64
    else -0x8000_0000 <= size < 0x8000_0000 && (size - sliceKB * 1024) % 0x1_0000_0000 == 0
  }

  lemma MessageSizes(cfg: Config)
    ensures SizeOf(cfg.DataSize(), cfg.sliceToWorkersKB, cfg.workersRead)
    ensures SizeOf(cfg.ResultSize(), cfg.sliceToMasterKB, cfg.workersWrite)
  {
  }

  /** What was matched, field by field: a result is as large as the slice to the master says,
      and data come from the master, as large as the slice to the workers says. */
  lemma MatchedSizes(cfg: Config, g: Group, it: nat, i: nat)
    requires cfg.Valid() && Reachable(cfg, g)
    ensures |g.ranks| == cfg.workersSet
    ensures it < |g.ranks[0].history| && i < |g.ranks[0].history[it]| ==>
              var c := g.ranks[0].history[it][i];
              c.op == MPI_SEND && c.tag == it + 1 && SizeOf(c.size, cfg.sliceToMasterKB, cfg.workersWrite)
    ensures 1 <= i < cfg.workersSet && it < |g.ranks[i].history| ==>
              && |g.ranks[i].history[it]| == 1
              && var c := g.ranks[i].history[it][0];
              && c.op == MPI_SEND && c.sender == 0 && c.tag == it + 1
              && SizeOf(c.size, cfg.sliceToWorkersKB, cfg.workersRead)
  {
    RoundsAreExact(cfg, g, it);
    MessageSizes(cfg);
    ReachableIsGood(cfg, g);
    assert RankOk(cfg, 0, g.ranks[0]);
  }

  /** In every reachable state a worker has sent no more results than it has written, written no
      more than it has computed, computed no more than it has got memory for, and that no more
      than it has read, each as answered by the operating system, and read no more than it has
      matched data for; and it is at most one result behind that. */
  lemma WorkersWorkInOrder(cfg: Config, g: Group, w: nat)
    requires cfg.Valid() && Reachable(cfg, g) && 1 <= w < cfg.workersSet
    ensures |g.ranks| == cfg.workersSet
    ensures var r := g.ranks[w];
            var data := |r.history| + |r.received|;
            && r.messages <= r.served.computed <= r.served.memory <= data <= r.messages + 1
            && (cfg.workersRead ==> r.served.memory <= r.served.fetched <= data)
            && (cfg.workersWrite ==> r.messages <= r.served.written <= r.served.computed)
            && (cfg.workersWrite && data > 0 ==> r.served.files == 1)
  {
    ReachableIsGood(cfg, g);
    assert RankOk(cfg, w, g.ranks[w]);
    WorkerIsOrdered(cfg, w, g.ranks[w]);
  }

  lemma WorkerIsOrdered(cfg: Config, me: nat, r: Rank)
    requires WorkerOk(cfg, me, r)
    ensures var data := |r.history| + |r.received|;
            && r.messages <= r.served.computed <= r.served.memory <= data <= r.messages + 1
            && (cfg.workersRead ==> r.served.memory <= r.served.fetched <= data)
            && (cfg.workersWrite ==> r.messages <= r.served.written <= r.served.computed)
            && (cfg.workersWrite && data > 0 ==> r.served.files == 1)
  {
  }

  lemma Ordered(w: int, d: int, k: int)
    requires w >= 1 && k <= d
    ensures w * k <= w * d && w * (k + 1) == w * k + w
  {
    assert w * (d - k) >= 0;
  }

  /** The master has sent whole rounds of data, none before it had read all of that round, and
      has written nothing of an iteration before all its results were matched. */
  lemma MasterWorksInOrder(cfg: Config, g: Group) returns (rounds: nat)
    requires cfg.Valid() && Reachable(cfg, g)
    ensures |g.ranks| == cfg.workersSet
    ensures var m := g.ranks[0];
            && |m.history| <= rounds <= |m.history| + 1 && m.messages == (cfg.workersSet - 1) * rounds
            && (!cfg.workersRead ==> cfg.workersSet * rounds <= m.served.fetched)
            && var closed := cfg.workersSet * |m.history|;
            var more := if |m.received| == cfg.workersSet - 1 then cfg.workersSet else 0;
            (!cfg.workersWrite ==> closed <= m.served.written <= closed + more)
  {
    ReachableIsGood(cfg, g);
    var m := g.ranks[0];
    assert RankOk(cfg, 0, m);
    rounds := Delivered(m);
    Ordered(cfg.workersSet, rounds, |m.history|);
  }

  /** An answer stops the process exactly when it is a failure, or one to a read or a write in a
      state that has issued none. */
  lemma WrongAnswersHalt(r: Rank, ok: bool)
    requires r.waiting.OnIo? || r.waiting.OnMem? || r.waiting.OnCpu?
    ensures Reply(r, ok).waiting.Halted? <==>
              r.waiting.OnIo? && (!ok
                || (r.waiting.op.Read? && r.phase != MasterReading && r.phase != WorkerReading)
                || (r.waiting.op.Write? && r.phase != MasterWriting && r.phase != WorkerWriting))
    ensures !Reply(r, ok).waiting.Halted? ==> Reply(r, ok).waiting.Ready?
  {
  }

  // ---------------------------------------------------------------- progress

  lemma StuckRank(g: Group, i: nat)
    requires Stuck(g) && i < |g.ranks|
    ensures var w := g.ranks[i].waiting; w.OnRecv? || w.Finished? || w.Halted?
  {
    assert !Enabled(g, Begin(i)) && !Enabled(g, Run(i)) && !Enabled(g, Answer(i));
  }

  /** If nothing can move, a call that is pending at rank d is listed there. */
  lemma StuckPending(cfg: Config, g: Group, m: Msg)
    requires Inv(cfg, g) && Stuck(g) && Token(cfg, g, m)
    ensures m.dst < |g.ranks| && AsCall(m) in g.ranks[m.dst].mpi.list
  {
    assert !Enabled(g, Deliver(m));
    assert Pending(g, m) == 1;
  }

  lemma StuckMaster(cfg: Config, g: Group)
    requires Inv(cfg, g) && Stuck(g)
    ensures g.ranks[0].waiting.Finished?
  {
    var m := g.ranks[0];
    assert RankOk(cfg, 0, m);
    StuckRank(g, 0);
    if m.waiting.OnRecv? {
      EveryWorkerOrOneMissing(cfg, m);
      var w :| 1 <= w < cfg.workersSet && !Got(m, w);
      var r := g.ranks[w];
      assert RankOk(cfg, w, r) && Chain(m, r, w);
      StuckRank(g, w);
      if SentBack(r) == m.iteration {
        StuckPending(cfg, g, Result(cfg, w, m.iteration));
      } else {
        StuckPending(cfg, g, Data(cfg, w, m.iteration));
      }
      assert false;
    }
  }

  /** No reachable state is a deadlock: where nothing can move, everybody is done. */
  lemma StuckMeansFinished(cfg: Config, g: Group, i: nat)
    requires Inv(cfg, g) && Stuck(g) && i < |g.ranks|
    ensures g.ranks[i].waiting.Finished?
  {
    StuckMaster(cfg, g);
    var m := g.ranks[0];
    assert RankOk(cfg, 0, m);
    if i != 0 {
      assert RankOk(cfg, i, g.ranks[i]) && Chain(m, g.ranks[i], i);
      StuckRank(g, i);
    }
  }

  lemma FinishedMeansNoMessage(cfg: Config, g: Group, m: Msg)
    requires Inv(cfg, g) && g.ranks[0].waiting.Finished?
    ensures Pending(g, m) == 0
  {
    assert RankOk(cfg, 0, g.ranks[0]);
    NoTokens(cfg, g, m);
  }

  /** A run that cannot be extended has completed: every rank did all iterations, no
      message is left, and who does the I/O did workersSet reads and writes a round. */
  lemma MaximalRunsComplete(cfg: Config, g: Group)
    requires cfg.Valid() && Reachable(cfg, g) && Stuck(g)
    ensures |g.ranks| == cfg.workersSet && g.net == multiset{}
    ensures cfg.Rounds() == if cfg.numIterations == 0 then 1 else cfg.numIterations
    ensures forall i :: 0 <= i < cfg.workersSet ==>
              g.ranks[i].waiting.Finished? && |g.ranks[i].history| == cfg.Rounds() && g.ranks[i].mpi.list == []
    ensures g.ranks[0].served == Served(if cfg.workersWrite then 0 else 1,
                                        if cfg.workersRead then 0 else cfg.workersSet * cfg.Rounds(),
                                        if cfg.workersWrite then 0 else cfg.workersSet * cfg.Rounds(), 0, 0)
    ensures g.ranks[0].messages == (cfg.workersSet - 1) * cfg.Rounds()
    ensures forall w :: 1 <= w < cfg.workersSet ==>
              && g.ranks[w].served == Served(if cfg.workersWrite then 1 else 0,
                                             if cfg.workersRead then cfg.Rounds() else 0,
                                             if cfg.workersWrite then cfg.Rounds() else 0, cfg.Rounds(), cfg.Rounds())
              && g.ranks[w].messages == cfg.Rounds()
  {
    ReachableIsGood(cfg, g);
    StuckMaster(cfg, g);
    forall i | 0 <= i < cfg.workersSet
      ensures g.ranks[i].waiting.Finished? && RankOk(cfg, i, g.ranks[i]) && g.ranks[i].mpi.list == []
    {
      StuckMeansFinished(cfg, g, i);
      if g.ranks[i].mpi.list != [] {
        var c := g.ranks[i].mpi.list[0];
        assert Pending(g, Back(i, c)) >= 1 by { ListedIsToken(cfg, g, i, c); }
        FinishedMeansNoMessage(cfg, g, Back(i, c));
        assert false;
      }
    }
    forall m ensures g.net[m] == 0 {
      FinishedMeansNoMessage(cfg, g, m);
    }
  }
}
