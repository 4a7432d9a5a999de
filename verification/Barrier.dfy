/** mpi_barrier(): every rank reports to rank 0, which releases all ranks once the
    last one is down (section 5.3 of MPI 3.1). */
module Barrier {
  import opened Matching

  function AllUp(n: nat): (s: seq<int>)
    ensures |s| == n
  {
    seq(n, _ => MPI_BARRIER_UP)
  }

  predicate AllDown(bars: seq<int>) {
    forall i :: 0 <= i < |bars| ==> bars[i] != MPI_BARRIER_UP
  }

  /** checkBarriers(): the array afterwards, and whether everybody was released. */
  function Checked(bars: seq<int>): (seq<int>, bool) {
    if AllDown(bars) then (AllUp(|bars|), true) else (bars, false)
  }

  /** The barrier state kept by rank 0. */
  class BarrierMaster {
    const numProcesses: nat
    const barriers: array<int>

    ghost predicate Valid() {
      barriers.Length == numProcesses
    }

    constructor (n: nat)
      ensures Valid() && fresh(barriers) && numProcesses == n && barriers[..] == AllUp(n)
    {
      numProcesses := n;
      barriers := new int[n];
      new;
      InitBarriers();
    }

    method InitBarriers()
      requires Valid()
      modifies barriers
      ensures barriers[..] == AllUp(numProcesses)
    {
      var i := 0;
      while i < numProcesses
        invariant 0 <= i <= numProcesses
        invariant forall k :: 0 <= k < i ==> barriers[k] == MPI_BARRIER_UP
      {
        barriers[i] := MPI_BARRIER_UP;
        i := i + 1;
      }
    }

    /** Returns the ranks a BARRIER_UP message is sent to; `released` says whether the
        master itself continues. */
    method CheckBarriers() returns (ups: seq<nat>, released: bool)
      requires Valid()
      modifies barriers
      ensures (barriers[..], released) == Checked(old(barriers[..]))
      ensures ups == if released then seq(if numProcesses == 0 then 0 else numProcesses - 1, k => k + 1) else []
    {
      var allDown, currentProcess := true, 0;
      while currentProcess < numProcesses && allDown
        invariant 0 <= currentProcess <= numProcesses
        invariant forall k :: 0 <= k < currentProcess ==> barriers[k] != MPI_BARRIER_UP
        invariant !allDown ==> currentProcess < numProcesses && barriers[currentProcess] == MPI_BARRIER_UP
        invariant barriers[..] == old(barriers[..])
        decreases numProcesses - currentProcess, allDown
      {
        if barriers[currentProcess] == MPI_BARRIER_UP {
          allDown := false;
        } else {
          currentProcess := currentProcess + 1;
        }
      }
      ups, released := [], allDown;
      if allDown {
        InitBarriers();
        currentProcess := 1;
        while currentProcess < numProcesses
          invariant 1 <= currentProcess && (currentProcess == 1 || currentProcess <= numProcesses)
          invariant ups == seq(currentProcess - 1, k => k + 1)
          invariant barriers[..] == AllUp(numProcesses)
        {
          ups := ups + [currentProcess];
          currentProcess := currentProcess + 1;
        }
      }
    }

    /** mpi_barrier_down() for a report of `sender`, and mpi_barrier() of the master
        itself. A rank outside the group stops the simulation. */
    method BarrierDown(sender: int) returns (ok: bool, ups: seq<nat>, released: bool)
      requires Valid()
      modifies barriers
      ensures ok == (0 <= sender < numProcesses)
      ensures ok ==> (barriers[..], released) == Checked(old(barriers[..])[sender := MPI_BARRIER_DOWN])
      ensures ok ==> ups == if released then seq(numProcesses - 1, k => k + 1) else []
      ensures !ok ==> barriers[..] == old(barriers[..]) && ups == [] && !released
    {
      ok, ups, released := true, [], false;
      if sender >= numProcesses || sender < 0 {
        ok := false;
        return;
      }
      barriers[sender] := MPI_BARRIER_DOWN;
      assert barriers[..] == old(barriers[..])[sender := MPI_BARRIER_DOWN];
      ups, released := CheckBarriers();
    }
  }
}
