/** Which ranks of an MPI application talk to each other: groups of workersSet ranks
    around a master, and the connections parseMachinesFile() opens. */
module Connections {
  import opened Arithmetic

  const MPI_MASTER_RANK: nat := 0

  predicate IsMaster(workersSet: nat, rank: nat) {
    if workersSet == 0 then rank == MPI_MASTER_RANK else rank % workersSet == 0
  }

  function GetMyMaster(workersSet: nat, rank: nat): nat {
    if workersSet == 0 then MPI_MASTER_RANK else (rank / workersSet) * workersSet
  }

  predicate IsThisWorkerInMyRange(workersSet: nat, master: nat, rank: nat) {
    if workersSet == 0 then true
    else IsMaster(workersSet, master) && master < rank < master + workersSet
  }

  /** The test under which rank `me` opens a connection to `other`. */
  predicate Opens(workersSet: nat, allToAll: bool, me: nat, other: nat) {
    && me != other
    && if workersSet == 0 then allToAll
       else GetMyMaster(workersSet, me) == other || IsThisWorkerInMyRange(workersSet, me, other)
  }

  datatype Parsed = Connections(ranks: seq<nat>, listens: nat) | WrongConfiguration

  function Chosen(workersSet: nat, allToAll: bool, me: nat, ranks: seq<nat>): seq<nat> {
    if ranks == [] then []
    else
      var n := |ranks| - 1;
      Chosen(workersSet, allToAll, me, ranks[..n])
        + if Opens(workersSet, allToAll, me, ranks[n]) then [ranks[n]] else []
  }

  lemma ChosenStep(workersSet: nat, allToAll: bool, me: nat, ranks: seq<nat>, i: nat)
    requires i < |ranks|
    ensures Chosen(workersSet, allToAll, me, ranks[..i + 1])
         == Chosen(workersSet, allToAll, me, ranks[..i])
            + if Opens(workersSet, allToAll, me, ranks[i]) then [ranks[i]] else []
    ensures multiset(ranks[..i + 1])[me] == multiset(ranks[..i])[me] + if ranks[i] == me then 1 else 0
  {
    assert ranks[..i + 1][..i] == ranks[..i] && ranks[..i + 1] == ranks[..i] + [ranks[i]];
  }

  /** parseMachinesFile(): `ranks` lists the processes of the configuration in file order. */
  method ParseMachinesFile(workersSet: nat, allToAll: bool, me: nat, ranks: seq<nat>) returns (parsed: Parsed)
    ensures parsed.WrongConfiguration? <==>
              || |ranks| == 0 || workersSet > |ranks|
              || (workersSet > 0 && |ranks| % workersSet != 0 && exists r :: r in ranks && r != me)
    ensures parsed.Connections? ==> parsed.ranks == Chosen(workersSet, allToAll, me, ranks)
    ensures parsed.Connections? ==> parsed.listens == multiset(ranks)[me]
  {
    if |ranks| == 0 || workersSet > |ranks| {
      return WrongConfiguration;
    }
    var connections, listens, i := [], 0, 0;
    while i < |ranks|
      invariant 0 <= i <= |ranks|
      invariant connections == Chosen(workersSet, allToAll, me, ranks[..i])
      invariant listens == multiset(ranks[..i])[me]
      invariant workersSet > 0 && |ranks| % workersSet != 0 ==> forall k :: 0 <= k < i ==> ranks[k] == me
    {
      ChosenStep(workersSet, allToAll, me, ranks, i);
      if ranks[i] == me {
        listens := listens + 1;
      } else if workersSet == 0 {
        if allToAll {
          connections := connections + [ranks[i]];
        }
      } else {
        if |ranks| % workersSet != 0 {
          assert ranks[i] in ranks;
          return WrongConfiguration;
        }
        if GetMyMaster(workersSet, me) == ranks[i] || IsThisWorkerInMyRange(workersSet, me, ranks[i]) {
          connections := connections + [ranks[i]];
        }
      }
      i := i + 1;
    }
    assert ranks[..i] == ranks;
    parsed := Connections(connections, listens);
  }

  lemma {:induction false} ChosenExactly(workersSet: nat, allToAll: bool, me: nat, ranks: seq<nat>, other: nat)
    ensures multiset(Chosen(workersSet, allToAll, me, ranks))[other]
         == if Opens(workersSet, allToAll, me, other) then multiset(ranks)[other] else 0
  {
    if ranks != [] {
      ChosenExactly(workersSet, allToAll, me, ranks[..|ranks| - 1], other);
      assert ranks == ranks[..|ranks| - 1] + [ranks[|ranks| - 1]];
    }
  }

  // ---------------------------------------------------------------- groups

  lemma GroupOf(workersSet: nat, group: nat, i: nat)
    requires i < workersSet
    ensures (group * workersSet + i) / workersSet == group
    ensures (group * workersSet + i) % workersSet == i
  {
    var n := group * workersSet + i;
    Split(workersSet, n);
    SameGroup(n / workersSet, n % workersSet, group, i, workersSet);
  }

  /** Rank i of a group: rank 0 is its only master, and the master of all of it. This is
      what lets the group protocol number its ranks from 0. */
  lemma RelativeRanks(workersSet: nat, group: nat, i: nat)
    requires i < workersSet
    ensures GetMyMaster(workersSet, group * workersSet + i) == group * workersSet
    ensures IsMaster(workersSet, group * workersSet + i) <==> i == 0
  {
    GroupOf(workersSet, group, i);
  }

  /** Two ranks are connected exactly when one is the master of the other: the graph is
      a disjoint union of stars. */
  lemma OpensIsStar(workersSet: nat, allToAll: bool, a: nat, b: nat)
    requires workersSet > 0
    ensures Opens(workersSet, allToAll, a, b) <==>
              a != b && (GetMyMaster(workersSet, a) == b || GetMyMaster(workersSet, b) == a)
  {
    if IsMaster(workersSet, a) {
      RangeIsGroup(workersSet, a, b);
    } else {
      MasterIsMaster(workersSet, b);
    }
  }

  lemma MasterIsMaster(workersSet: nat, a: nat)
    requires workersSet > 0
    ensures IsMaster(workersSet, GetMyMaster(workersSet, a))
    ensures IsMaster(workersSet, a) <==> GetMyMaster(workersSet, a) == a
    ensures GetMyMaster(workersSet, GetMyMaster(workersSet, a)) == GetMyMaster(workersSet, a)
  {
    RelativeRanks(workersSet, a / workersSet, 0);
    Split(workersSet, a);
  }

  /** The workers in the range of a master are the ranks it is the master of. */
  lemma RangeIsGroup(workersSet: nat, master: nat, b: nat)
    requires workersSet > 0 && IsMaster(workersSet, master)
    ensures IsThisWorkerInMyRange(workersSet, master, b) <==> b != master && GetMyMaster(workersSet, b) == master
  {
    Split(workersSet, master);
    Split(workersSet, b);
    var p, q := master / workersSet, b / workersSet;
    if p < q { Gap(p, q, workersSet); }
    if q < p { Gap(q, p, workersSet); }
  }

  /** Without groups there is one master, and the graph is complete or empty as allToAll says. */
  lemma OneGroupExactly(allToAll: bool, a: nat, b: nat)
    ensures GetMyMaster(0, a) == 0 && (IsMaster(0, a) <==> a == 0)
    ensures a != b ==> (Opens(0, allToAll, a, b) <==> allToAll)
    ensures !Opens(0, allToAll, a, a)
  {
  }

  /** Both ends open the connection, and connected ranks share their master. */
  lemma OpensIsSymmetric(workersSet: nat, allToAll: bool, a: nat, b: nat)
    ensures Opens(workersSet, allToAll, a, b) <==> Opens(workersSet, allToAll, b, a)
    ensures workersSet > 0 && Opens(workersSet, allToAll, a, b) ==>
              GetMyMaster(workersSet, a) == GetMyMaster(workersSet, b)
  {
    if workersSet > 0 {
      OpensIsStar(workersSet, allToAll, a, b);
      OpensIsStar(workersSet, allToAll, b, a);
      MasterIsMaster(workersSet, a);
      MasterIsMaster(workersSet, b);
    }
  }

  /** A destination of deliverData() or of sendResults(). */
  predicate SendsTo(workersSet: nat, me: nat, other: nat) {
    if IsMaster(workersSet, me) then me < other < me + workersSet else other == GetMyMaster(workersSet, me)
  }

  /** Whatever ApplicationHPC sends to is connected. */
  lemma DestinationsAreOpened(workersSet: nat, allToAll: bool, me: nat, other: nat)
    requires workersSet > 0 && SendsTo(workersSet, me, other)
    ensures Opens(workersSet, allToAll, me, other)
  {
  }

  /** Every destination of every process exists exactly when workersSet divides the
      number of processes: the check of parseMachinesFile() is neither too weak nor too strong. */
  lemma DestinationsExistIff(workersSet: nat, numProcesses: nat)
    requires workersSet > 0
    ensures (forall me, other :: 0 <= me < numProcesses && 0 <= other && SendsTo(workersSet, me, other) ==>
               other < numProcesses)
            <==> numProcesses % workersSet == 0
  {
    var (groups, rest) := (numProcesses / workersSet, numProcesses % workersSet);
    assert numProcesses == groups * workersSet + rest;
    if rest == 0 {
      forall me, other | 0 <= me < numProcesses && 0 <= other && SendsTo(workersSet, me, other)
        ensures other < numProcesses
      {
        DestinationInGroup(workersSet, groups, me, other);
      }
    } else {
      RelativeRanks(workersSet, groups, 0);
      assert SendsTo(workersSet, groups * workersSet, groups * workersSet + workersSet - 1);
    }
  }

  lemma DestinationInGroup(workersSet: nat, groups: nat, me: nat, other: nat)
    requires workersSet > 0 && me < groups * workersSet && SendsTo(workersSet, me, other)
    ensures other < groups * workersSet
  {
    var g := me / workersSet;
    Split(workersSet, me);
    if groups < g { Gap(groups, g, workersSet); }
    assert g < groups;
    Gap(g, groups, workersSet);
  }
}
