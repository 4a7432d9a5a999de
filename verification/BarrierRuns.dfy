/** All ranks together: any interleaving, any delivery order, any number of barriers. */
module BarrierRuns {
  import opened Matching
  import Connections
  import opened Barrier

  /** `entered` and `left` count, per rank, calls of mpi_barrier() and returns from it. */
  datatype Net = Net(bars: seq<int>, down: multiset<nat>, up: multiset<nat>, entered: seq<nat>, left: seq<nat>)

  datatype Step = Enter(rank: nat) | DeliverDown(rank: nat) | DeliverUp(rank: nat)

  function Start(n: nat): Net {
    Net(AllUp(n), multiset{}, multiset{}, seq(n, _ => 0), seq(n, _ => 0))
  }

  /** A rank inside a barrier is blocked and cannot enter another one. */
  predicate Enabled(s: Net, step: Step) {
    match step
    case Enter(r) => r < |s.entered| && r < |s.left| && s.entered[r] == s.left[r]
    case DeliverDown(r) => r in s.down
    case DeliverUp(r) => r in s.up && r < |s.left|
  }

  function Others(n: nat): (m: multiset<nat>)
    ensures forall r :: m[r] == if 1 <= r < n then 1 else 0
  {
    if n <= 1 then multiset{} else Others(n - 1) + multiset{n - 1}
  }

  lemma {:induction false} UpsAreOthers(n: nat)
    requires n >= 1
    ensures multiset(seq(n - 1, (k: nat) => k + 1)) == Others(n)
  {
    var ups := seq(n - 1, (k: nat) => k + 1);
    if n > 1 {
      UpsAreOthers(n - 1);
      assert ups == seq(n - 2, (k: nat) => k + 1) + [n - 1];
    }
  }

  /** Rank `r` is marked down at the master, which then runs checkBarriers(). */
  function MarkDown(s: Net, r: nat): Net
    requires r < |s.bars| && |s.left| == |s.bars|
  {
    var (bars, released) := Checked(s.bars[r := MPI_BARRIER_DOWN]);
    if released then s.(bars := bars, up := s.up + Others(|s.bars|), left := s.left[0 := s.left[0] + 1])
    else s.(bars := bars)
  }

  ghost function Next(s: Net, step: Step): Net
    requires Shape(s) && Enabled(s, step)
  {
    match step
    case Enter(r) =>
      var s' := s.(entered := s.entered[r := s.entered[r] + 1]);
      if r == Connections.MPI_MASTER_RANK then MarkDown(s', r) else s'.(down := s.down + multiset{r})
    case DeliverDown(r) => MarkDown(s.(down := s.down - multiset{r}), r)
    case DeliverUp(r) => s.(up := s.up - multiset{r}, left := s.left[r := s.left[r] + 1])
  }

  ghost predicate Shape(s: Net) {
    && |s.bars| == |s.entered| == |s.left| >= 1
    && forall r :: r in s.down || r in s.up ==> 1 <= r < |s.bars|
  }

  function Flag(s: Net, r: nat): nat
    requires r < |s.bars|
  {
    if s.bars[r] == MPI_BARRIER_UP then 0 else 1
  }

  /** The master's count is the number of releases; every other rank is at most one
      barrier ahead, and then its report, its mark or its release is the only one. */
  ghost predicate Inv(s: Net) {
    && Shape(s)
    && s.entered[0] == s.left[0] + Flag(s, 0)
    && (forall r :: 1 <= r < |s.bars| ==> RankInv(s, r))
    && (exists r :: 0 <= r < |s.bars| && s.bars[r] == MPI_BARRIER_UP)
  }

  /** `t` is `s` just before rank `r` is marked down: by its own call if it is the
      master, by its report otherwise. */
  predicate Marking(s: Net, t: Net, r: nat) {
    && t.bars == s.bars && t.up == s.up && t.left == s.left
    && if r == 0 then |s.entered| > 0 && t.down == s.down && t.entered == s.entered[0 := s.entered[0] + 1]
       else t.down == s.down - multiset{r} && t.entered == s.entered
  }

  /** What the invariant says of a rank other than the master. */
  predicate RankInv(s: Net, r: nat)
    requires r < |s.bars| == |s.entered| == |s.left|
  {
    && s.entered[r] == s.left[0] + s.down[r] + Flag(s, r)
    && s.left[0] == s.left[r] + s.up[r]
    && s.down[r] + Flag(s, r) + s.up[r] <= 1
  }

  /** Every rank is down, so nothing is on its way and all have entered once more. */
  lemma AllEntered(s: Net, t: Net, r: nat, q: nat)
    requires Inv(s) && r < |s.bars| && Marking(s, t, r) && AllDown(t.bars[r := MPI_BARRIER_DOWN])
    requires if r == 0 then s.entered[0] == s.left[0] else s.down[r] == 1
    requires q < |s.bars|
    ensures t.entered[q] == s.left[0] + 1
    ensures q > 0 ==> t.down[q] == 0 && s.up[q] == 0 && s.left[q] == s.left[0]
  {
    assert q > 0 ==> RankInv(s, q);
    assert q != r ==> t.bars[r := MPI_BARRIER_DOWN][q] != MPI_BARRIER_UP;
  }

  lemma ReleaseKeeps(s: Net, t: Net, r: nat)
    requires Inv(s) && r < |s.bars| && Marking(s, t, r) && AllDown(t.bars[r := MPI_BARRIER_DOWN])
    requires if r == 0 then s.entered[0] == s.left[0] else s.down[r] == 1
    ensures Inv(MarkDown(t, r))
  {
    var t' := MarkDown(t, r);
    var n := |s.bars|;
    assert t'.bars == AllUp(n) && t'.up == s.up + Others(n) && t'.left == s.left[0 := s.left[0] + 1];
    assert t'.bars[0] == MPI_BARRIER_UP;
    AllEntered(s, t, r, 0);
    forall q | 1 <= q < n ensures RankInv(t', q) {
      AllEntered(s, t, r, q);
    }
  }

  lemma MarkKeeps(s: Net, t: Net, r: nat)
    requires Inv(s) && r < |s.bars| && Marking(s, t, r) && !AllDown(t.bars[r := MPI_BARRIER_DOWN])
    requires if r == 0 then s.entered[0] == s.left[0] else s.down[r] == 1
    ensures Inv(MarkDown(t, r))
  {
    var t' := MarkDown(t, r);
    assert t'.bars == t.bars[r := MPI_BARRIER_DOWN];
    forall p | 1 <= p < |s.bars| ensures RankInv(t', p) {
      assert RankInv(s, p);
    }
  }

  lemma MarkDownKeeps(s: Net, t: Net, r: nat)
    requires Inv(s) && r < |s.bars| && Marking(s, t, r)
    requires if r == 0 then s.entered[0] == s.left[0] else s.down[r] == 1
    ensures Inv(MarkDown(t, r))
  {
    if AllDown(t.bars[r := MPI_BARRIER_DOWN]) {
      ReleaseKeeps(s, t, r);
    } else {
      MarkKeeps(s, t, r);
    }
  }

  lemma WorkerEnters(s: Net, r: nat)
    requires Inv(s) && Enabled(s, Enter(r)) && r != 0
    ensures Inv(Next(s, Enter(r)))
  {
    var s' := Next(s, Enter(r));
    var q :| 0 <= q < |s.bars| && s.bars[q] == MPI_BARRIER_UP;
    assert s'.bars[q] == MPI_BARRIER_UP;
    forall p | 1 <= p < |s.bars| ensures RankInv(s', p) {
      assert RankInv(s, p);
    }
  }

  lemma ReleaseArrives(s: Net, r: nat)
    requires Inv(s) && Enabled(s, DeliverUp(r))
    ensures Inv(Next(s, DeliverUp(r)))
  {
    var s' := Next(s, DeliverUp(r));
    var q :| 0 <= q < |s.bars| && s.bars[q] == MPI_BARRIER_UP;
    assert s'.bars[q] == MPI_BARRIER_UP;
    forall p | 1 <= p < |s.bars| ensures RankInv(s', p) {
      assert RankInv(s, p);
    }
  }

  lemma MasterEnters(s: Net)
    requires Inv(s) && Enabled(s, Enter(0))
    ensures Inv(Next(s, Enter(0)))
  {
    MarkDownKeeps(s, s.(entered := s.entered[0 := s.entered[0] + 1]), 0);
  }

  lemma ReportArrives(s: Net, r: nat)
    requires Inv(s) && Enabled(s, DeliverDown(r))
    ensures Inv(Next(s, DeliverDown(r)))
  {
    assert RankInv(s, r);
    MarkDownKeeps(s, s.(down := s.down - multiset{r}), r);
  }

  lemma NextKeeps(s: Net, step: Step)
    requires Inv(s) && Enabled(s, step)
    ensures Inv(Next(s, step))
  {
    match step
    case Enter(r) => if r == 0 { MasterEnters(s); } else { WorkerEnters(s, r); }
    case DeliverDown(r) => ReportArrives(s, r);
    case DeliverUp(r) => ReleaseArrives(s, r);
  }

  ghost predicate IsRun(n: nat, states: seq<Net>, steps: seq<Step>) {
    && |states| == |steps| + 1 && states[0] == Start(n)
    && forall k :: 0 <= k < |steps| ==>
         Shape(states[k]) && Enabled(states[k], steps[k]) && states[k + 1] == Next(states[k], steps[k])
  }

  lemma {:induction false} RunKeeps(n: nat, states: seq<Net>, steps: seq<Step>, k: nat)
    requires n >= 1 && IsRun(n, states, steps) && k < |states|
    ensures Inv(states[k]) && |states[k].bars| == n
  {
    if k == 0 {
      assert states[0].bars[0] == MPI_BARRIER_UP;
    } else {
      RunKeeps(n, states, steps, k - 1);
      NextKeeps(states[k - 1], steps[k - 1]);
    }
  }

  /** No rank leaves its k-th barrier before every rank has entered its k-th, and the
      numbers of completed barriers of two ranks differ by at most one. */
  lemma BarrierSafety(n: nat, states: seq<Net>, steps: seq<Step>, k: nat, a: nat, b: nat)
    requires n >= 1 && IsRun(n, states, steps) && k < |states| && a < n && b < n
    ensures |states[k].entered| == |states[k].left| == n
    ensures states[k].left[a] <= states[k].entered[b]
    ensures states[k].left[a] <= states[k].left[b] + 1
  {
    RunKeeps(n, states, steps, k);
    var s := states[k];
    assert a > 0 ==> RankInv(s, a);
    assert b > 0 ==> RankInv(s, b);
  }

  /** When every rank is inside a barrier, some message is still on its way: the
      barrier cannot hang. */
  lemma BarrierProgress(n: nat, states: seq<Net>, steps: seq<Step>, k: nat)
    requires n >= 1 && IsRun(n, states, steps) && k < |states|
    requires forall r :: 0 <= r < |states[k].entered| && r < |states[k].left| ==>
               states[k].entered[r] == states[k].left[r] + 1
    ensures exists step: Step :: !step.Enter? && Enabled(states[k], step)
  {
    RunKeeps(n, states, steps, k);
    var s := states[k];
    var q :| 0 <= q < n && s.bars[q] == MPI_BARRIER_UP;
    assert q != 0 && RankInv(s, q);
    if s.down[q] > 0 {
      assert Enabled(s, DeliverDown(q));
    } else {
      assert Enabled(s, DeliverUp(q));
    }
  }

  /** Liveness: once nothing is on its way any more, a rank has left its k-th barrier exactly
      when every rank has entered its k-th. */
  lemma DeliveredMeansReleased(n: nat, states: seq<Net>, steps: seq<Step>, j: nat, a: nat, k: nat)
    requires n >= 1 && IsRun(n, states, steps) && j < |states| && a < n
    requires states[j].down == multiset{} && states[j].up == multiset{}
    ensures |states[j].entered| == |states[j].left| == n
    ensures k <= states[j].left[a] <==> forall b :: 0 <= b < n ==> k <= states[j].entered[b]
  {
    RunKeeps(n, states, steps, j);
    var s := states[j];
    forall b | 0 <= b < n ensures s.left[b] == s.left[0] && s.entered[b] == s.left[0] + Flag(s, b) {
      assert b > 0 ==> RankInv(s, b);
    }
    var q :| 0 <= q < n && s.bars[q] == MPI_BARRIER_UP;
    assert s.entered[q] == s.left[0];
  }
}
