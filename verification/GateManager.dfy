/** cGateManager: a growing vector of gates with a queue of unlinked positions. */
module GateManager {
  import opened Wrappers

  datatype Gates = Gates(holes: seq<nat>, hit: seq<bool>)

  const EMPTY: Gates := Gates([], [])

  /** linkGate(); None where the source throws. */
  function Link(g: Gates, index: nat): Option<Gates> {
    if |g.hit| < index then None
    else if |g.hit| == index then Some(g.(hit := g.hit + [true]))
    else if g.hit[index] then None
    else Some(g.(hit := g.hit[index := true]))
  }

  /** The position newGate() chooses, and the queue afterwards. */
  function Position(g: Gates): nat {
    if g.hit == [] then 0 else if g.holes != [] then g.holes[0] else |g.hit|
  }

  function New(g: Gates): Option<Gates> {
    Link(if g.hit != [] && g.holes != [] then g.(holes := g.holes[1..]) else g, Position(g))
  }

  /** freeGate(); a gate that is not linked is an error. */
  function Free(g: Gates, index: nat): Option<Gates>
    requires index < |g.hit|
  {
    if !g.hit[index] then None else Some(Gates(g.holes + [index], g.hit[index := false]))
  }

  predicate InUse(g: Gates, index: nat) {
    index < |g.hit| && g.hit[index]
  }

  function Live(hit: seq<bool>): nat {
    if hit == [] then 0 else Live(hit[..|hit| - 1]) + if hit[|hit| - 1] then 1 else 0
  }

  /** The queue lists each unlinked position exactly once. */
  predicate Valid(g: Gates) {
    && (forall i, j :: 0 <= i < j < |g.holes| ==> g.holes[i] != g.holes[j])
    && (forall i :: 0 <= i < |g.holes| ==> g.holes[i] < |g.hit| && !g.hit[g.holes[i]])
    && (forall p :: 0 <= p < |g.hit| && !g.hit[p] ==> p in g.holes)
    && Live(g.hit) + |g.holes| == |g.hit|
  }

  lemma {:induction false} LiveUpdate(hit: seq<bool>, i: nat, b: bool)
    requires i < |hit| && hit[i] != b
    ensures Live(hit[i := b]) == if b then Live(hit) + 1 else Live(hit) - 1
    ensures !b ==> Live(hit) > 0
  {
    var n := |hit| - 1;
    if i == n {
      assert hit[i := b][..n] == hit[..n];
    } else {
      assert hit[i := b][..n] == hit[..n][i := b];
      LiveUpdate(hit[..n], i, b);
    }
  }

  lemma HoleIsTaken(g: Gates)
    requires Valid(g) && g.holes != []
    ensures var g' := Gates(g.holes[1..], g.hit[g.holes[0] := true]);
            && New(g) == Some(g') && Valid(g') && Live(g'.hit) == Live(g.hit) + 1
            && forall p :: InUse(g', p) <==> InUse(g, p) || p == g.holes[0]
  {
    LiveUpdate(g.hit, g.holes[0], true);
    var g' := Gates(g.holes[1..], g.hit[g.holes[0] := true]);
    forall p | 0 <= p < |g'.hit| && !g'.hit[p] ensures p in g'.holes {
      assert p in g.holes && p != g.holes[0];
    }
  }

  lemma VectorGrows(g: Gates)
    requires Valid(g) && g.holes == []
    ensures var g' := Gates([], g.hit + [true]);
            && New(g) == Some(g') && Valid(g') && Live(g'.hit) == Live(g.hit) + 1
            && forall p :: InUse(g', p) <==> InUse(g, p) || p == |g.hit|
  {
    assert (g.hit + [true])[..|g.hit|] == g.hit;
    assert |[true]| == 1 && [true][..0] == [];
  }

  /** newGate() never fails and takes a position that is not in use; a hole goes to the
      front of the queue first, and the vector grows only when every position is live. */
  lemma NewKeeps(g: Gates)
    requires Valid(g)
    ensures New(g).Some? && Valid(New(g).value)
    ensures !InUse(g, Position(g)) && InUse(New(g).value, Position(g))
    ensures forall p :: p != Position(g) ==> InUse(New(g).value, p) == InUse(g, p)
    ensures Live(New(g).value.hit) == Live(g.hit) + 1
    ensures g.holes != [] ==> g.holes == [Position(g)] + New(g).value.holes && |New(g).value.hit| == |g.hit|
    ensures g.holes == [] ==> New(g).value.holes == [] && |New(g).value.hit| == |g.hit| + 1 && Live(g.hit) == |g.hit|
  {
    if g.holes != [] {
      HoleIsTaken(g);
    } else {
      VectorGrows(g);
    }
  }

  lemma FreeKeeps(g: Gates, index: nat)
    requires Valid(g) && InUse(g, index)
    ensures Free(g, index).Some? && Valid(Free(g, index).value) && !InUse(Free(g, index).value, index)
    ensures forall p :: p != index ==> InUse(Free(g, index).value, p) == InUse(g, p)
    ensures Live(Free(g, index).value.hit) == Live(g.hit) - 1
  {
    LiveUpdate(g.hit, index, false);
    var g' := Free(g, index).value;
    assert g'.holes[|g.holes|] == index;
    forall p | 0 <= p < |g'.hit| && !g'.hit[p] ensures p in g'.holes {
      if p != index { assert p in g.holes; }
    }
  }

  /** linkGate() throws exactly beyond the end of the vector and at a gate that is linked; else
      it links that gate and no other. */
  lemma LinkExactly(g: Gates, index: nat)
    ensures Link(g, index).Some? <==> index <= |g.hit| && !InUse(g, index)
    ensures Link(g, index).Some? ==>
              && Link(g, index).value.holes == g.holes
              && |Link(g, index).value.hit| == (if index == |g.hit| then index + 1 else |g.hit|)
              && forall p: nat :: InUse(Link(g, index).value, p) <==> InUse(g, p) || p == index
  {
  }

  /** freeGate() throws exactly at a gate that is not linked; else it queues that one last. */
  lemma FreeExactly(g: Gates, index: nat)
    requires index < |g.hit|
    ensures Free(g, index).Some? <==> InUse(g, index)
    ensures Free(g, index).Some? ==>
              && Free(g, index).value.holes == g.holes + [index] && |Free(g, index).value.hit| == |g.hit|
              && forall p: nat :: InUse(Free(g, index).value, p) <==> InUse(g, p) && p != index
  {
  }

  // ---------------------------------------------------------------- runs

  datatype Op = NewGate | FreeGate(index: nat)

  /** With the freed positions in order, the reused ones in order, and the most gates
      that were ever linked at once. */
  datatype Run = Run(gates: Gates, freed: seq<nat>, reused: seq<nat>, peak: nat)

  /** Freeing a gate that is not linked is not a valid operation; it changes nothing here. */
  function Step(r: Run, op: Op): Option<Run> {
    match op
    case NewGate =>
      var g := New(r.gates);
      if g.None? then None
      else Some(Run(g.value, r.freed,
                    if r.gates.holes != [] then r.reused + [Position(r.gates)] else r.reused,
                    if Live(g.value.hit) > r.peak then Live(g.value.hit) else r.peak))
    case FreeGate(i) =>
      if !InUse(r.gates, i) then Some(r)
      else Some(r.(gates := Free(r.gates, i).value, freed := r.freed + [i]))
  }

  function After(ops: seq<Op>): Option<Run> {
    if ops == [] then Some(Run(EMPTY, [], [], 0))
    else
      var r := After(ops[..|ops| - 1]);
      if r.None? then None else Step(r.value, ops[|ops| - 1])
  }

  /** Freed is reused then still a hole, and the peak is the size of the vector. */
  predicate Kept(r: Run) {
    Valid(r.gates) && r.freed == r.reused + r.gates.holes && r.peak == |r.gates.hit|
  }

  lemma TakenIsReused(reused: seq<nat>, holes: seq<nat>, p: nat, rest: seq<nat>)
    requires holes == [p] + rest
    ensures reused + holes == reused + [p] + rest
  {
  }

  lemma NewGateKeepsRun(r: Run)
    requires Kept(r)
    ensures Step(r, NewGate).Some? && Kept(Step(r, NewGate).value)
  {
    NewKeeps(r.gates);
    var g := New(r.gates).value;
    assert Live(g.hit) + |g.holes| == |g.hit|;
    if r.gates.holes != [] {
      TakenIsReused(r.reused, r.gates.holes, Position(r.gates), g.holes);
    }
  }

  lemma FreeGateKeepsRun(r: Run, i: nat)
    requires Kept(r)
    ensures Step(r, FreeGate(i)).Some? && Kept(Step(r, FreeGate(i)).value)
  {
    if InUse(r.gates, i) {
      FreeKeeps(r.gates, i);
      assert r.reused + (r.gates.holes + [i]) == r.freed + [i];
    }
  }

  /** Under any sequence of operations the errors of linkGate() are never met, the holes
      are handed out in the order they were freed, and the vector is exactly as long as
      the most gates ever in use at once. */
  lemma {:induction false} AllocatorRuns(ops: seq<Op>)
    ensures After(ops).Some? && Valid(After(ops).value.gates)
    ensures After(ops).value.freed == After(ops).value.reused + After(ops).value.gates.holes
    ensures After(ops).value.peak == |After(ops).value.gates.hit|
  {
    if ops == [] {
      assert Live([]) == 0;
    } else {
      AllocatorRuns(ops[..|ops| - 1]);
      var r := After(ops[..|ops| - 1]).value;
      match ops[|ops| - 1]
      case NewGate => NewGateKeepsRun(r);
      case FreeGate(i) => FreeGateKeepsRun(r, i);
    }
  }

  // ---------------------------------------------------------------- the object

  class GateVector {
    var holes: seq<nat>
    var hit: seq<bool>
    /** The identifier the kernel gives to the gate at a position. */
    const gateIds: nat -> int

    function View(): Gates
      reads this
    {
      Gates(holes, hit)
    }

    constructor (gateIds: nat -> int)
      ensures View() == EMPTY && this.gateIds == gateIds
    {
      holes, hit := [], [];
      this.gateIds := gateIds;
    }

    method LinkGate(index: nat) returns (ok: bool)
      modifies this`hit
      ensures ok == Link(old(View()), index).Some?
      ensures ok ==> View() == Link(old(View()), index).value
      ensures !ok ==> View() == old(View())
    {
      ok := true;
      if |hit| < index {
        ok := false;
      } else if |hit| == index {
        hit := hit + [true];
      } else if hit[index] {
        ok := false;
      } else {
        hit := hit[index := true];
      }
    }

    method NewGate() returns (ok: bool, gatePosition: nat)
      modifies this
      ensures gatePosition == Position(old(View())) && ok == New(old(View())).Some?
      ensures ok ==> View() == New(old(View())).value
    {
      if |hit| == 0 {
        gatePosition := 0;
      } else {
        if |holes| > 0 {
          gatePosition := holes[0];
          holes := holes[1..];
        } else {
          gatePosition := |hit|;
        }
      }
      ok := LinkGate(gatePosition);
    }

    method FreeGate(index: nat) returns (ok: bool)
      requires index < |hit|
      modifies this
      ensures ok == Free(old(View()), index).Some?
      ensures ok ==> View() == Free(old(View()), index).value
      ensures !ok ==> View() == old(View())
    {
      if !hit[index] {
        ok := false;
      } else {
        ok := true;
        hit := hit[index := false];
        holes := holes + [index];
      }
    }

    /** searchGate(): -1 where the source throws. Unlinked positions are searched too. */
    method SearchGate(gateId: int) returns (position: int)
      ensures -1 <= position < |hit|
      ensures position >= 0 ==> gateIds(position) == gateId && forall i: nat :: i < position ==> gateIds(i) != gateId
      ensures position < 0 ==> forall i: nat :: i < |hit| ==> gateIds(i) != gateId
    {
      var found, i := false, 0;
      position := -1;
      while i < |hit| && !found
        invariant 0 <= i <= |hit|
        invariant !found ==> position == -1 && forall k: nat :: k < i ==> gateIds(k) != gateId
        invariant found ==> 0 <= position < |hit| && gateIds(position) == gateId
        invariant found ==> forall k: nat :: k < position ==> gateIds(k) != gateId
        decreases |hit| - i, !found
      {
        if gateIds(i) == gateId {
          found := true;
          position := i;
        }
        i := i + 1;
      }
    }
  }
}
