/** The ports table of NetworkManager: nodes inserted in address order, found by a halving
    search with a linear search behind it. */
module PortsTable {
  import opened Wrappers
  import opened Sequences
  import opened IpText

  /** A node address: the text that is compared for equality, and the four numbers that
      sscanf() reads from it and isMajorIP() compares. */
  datatype Ip = Ip(text: string, quad: Quad)

  /** `before` is what the variables hold that sscanf() may not reach. */
  function ReadIp(s: string, before: Quad): Ip {
    Ip(s, Filled(s, before))
  }

  /** A table entry; `serial` stands for the identity of the entry. */
  datatype PortTable = PortTable(ip: Ip, serial: nat)

  predicate Major(a: Quad, b: Quad) {
    a.first >= b.first && a.second >= b.second && a.third >= b.third && a.fourth >= b.fourth
  }

  /** isMajorIP(): each number of A is at least that of B. This is not a total order. */
  predicate IsMajorIP(a: Ip, b: Ip) {
    Major(a.quad, b.quad)
  }

  function Address(e: PortTable): Quad {
    e.ip.quad
  }

  // ---------------------------------------------------------------- registration

  /** registerNode(): in front of the first entry that the new node is not major to. */
  function Register(table: seq<PortTable>, e: PortTable): seq<PortTable> {
    if table == [] then [e]
    else if !IsMajorIP(e.ip, table[0].ip) then [e] + table
    else [table[0]] + Register(table[1..], e)
  }

  function RegisterAll(es: seq<PortTable>): seq<PortTable> {
    if es == [] then [] else Register(RegisterAll(es[..|es| - 1]), es[|es| - 1])
  }

  predicate Comparable(es: seq<PortTable>) {
    forall i, j :: 0 <= i < |es| && 0 <= j < |es| ==>
      Major(Address(es[i]), Address(es[j])) || Major(Address(es[j]), Address(es[i]))
  }

  predicate ComparableWith(table: seq<PortTable>, e: PortTable) {
    forall i :: 0 <= i < |table| ==> Major(Address(e), Address(table[i])) || Major(Address(table[i]), Address(e))
  }

  predicate Sorted(table: seq<PortTable>) {
    forall i, j :: 0 <= i <= j < |table| ==> Major(Address(table[j]), Address(table[i]))
  }

  /** Every number of the address of a is at least that of b. */
  predicate AtLeast(a: PortTable, b: PortTable) {
    && Address(a).first >= Address(b).first && Address(a).second >= Address(b).second
    && Address(a).third >= Address(b).third && Address(a).fourth >= Address(b).fourth
  }

  /** Node e can stand at position i: it is at least every node before it, and not at least the
      one behind it. */
  predicate Belongs(table: seq<PortTable>, e: PortTable, i: nat)
    requires i <= |table|
  {
    (forall j :: 0 <= j < i ==> AtLeast(e, table[j])) && (i < |table| ==> !AtLeast(e, table[i]))
  }

  /** In a table of any order a new node goes to the one position where it belongs. */
  lemma {:induction false} RegisterInsertsExactly(table: seq<PortTable>, e: PortTable) returns (i: nat)
    ensures i <= |table| && Belongs(table, e, i) && Register(table, e) == table[..i] + [e] + table[i..]
    ensures forall k: nat :: k <= |table| && Belongs(table, e, k) ==> k == i
  {
    if table == [] || !AtLeast(e, table[0]) {
      i := 0;
      assert table[..0] + [e] + table[0..] == [e] + table;
    } else {
      var j := RegisterInsertsExactly(table[1..], e);
      i := j + 1;
      assert forall k :: 0 < k < |table| ==> table[k] == table[1..][k - 1];
      assert table[..i] + [e] + table[i..] == [table[0]] + (table[1..][..j] + [e] + table[1..][j..]);
    }
  }

  lemma {:induction false} RegisterKeeps(table: seq<PortTable>, e: PortTable)
    ensures multiset(Register(table, e)) == multiset(table) + multiset{e}
  {
    if table != [] && IsMajorIP(e.ip, table[0].ip) {
      RegisterKeeps(table[1..], e);
      assert table == [table[0]] + table[1..];
    }
  }

  lemma {:induction false} RegisterAllKeeps(es: seq<PortTable>)
    ensures multiset(RegisterAll(es)) == multiset(es)
  {
    if es != [] {
      var n := |es| - 1;
      RegisterAllKeeps(es[..n]);
      RegisterKeeps(RegisterAll(es[..n]), es[n]);
      assert es == es[..n] + [es[n]];
    }
  }

  lemma {:induction false} RegisterSorts(table: seq<PortTable>, e: PortTable)
    requires Sorted(table) && ComparableWith(table, e)
    ensures Sorted(Register(table, e))
  {
    if table != [] && IsMajorIP(e.ip, table[0].ip) {
      RegisterSorts(table[1..], e);
      var rest := Register(table[1..], e);
      RegisterKeeps(table[1..], e);
      forall j | 0 <= j < |rest| ensures Major(Address(rest[j]), Address(table[0])) {
        assert rest[j] in multiset(rest);
        assert rest[j] == e || rest[j] in table[1..];
      }
    }
  }

  /** Registration in any order keeps the table a sorted permutation of the nodes,
      provided the nodes are pairwise comparable. */
  lemma {:induction false} RegisterAllSorts(es: seq<PortTable>)
    requires Comparable(es)
    ensures Sorted(RegisterAll(es)) && multiset(RegisterAll(es)) == multiset(es)
    ensures forall i, j :: 0 <= i <= j < |RegisterAll(es)| ==> AtLeast(RegisterAll(es)[j], RegisterAll(es)[i])
  {
    RegisterAllKeeps(es);
    if es != [] {
      var n := |es| - 1;
      var table := RegisterAll(es[..n]);
      RegisterAllSorts(es[..n]);
      forall i | 0 <= i < |table|
        ensures Major(Address(es[n]), Address(table[i])) || Major(Address(table[i]), Address(es[n]))
      {
        assert table[i] in multiset(table);
        assert table[i] in es[..n];
      }
      RegisterSorts(table, es[n]);
    }
  }

  // ---------------------------------------------------------------- lookup

  /** The halving loop on [lower, higher) with at most `rounds` rounds to go. */
  function Halving(table: seq<PortTable>, ip: Ip, lower: nat, higher: nat, rounds: nat): (r: Option<nat>)
    requires lower < higher <= |table|
    ensures r.Some? ==> r.value < |table| && table[r.value].ip.text == ip.text
    decreases rounds
  {
    if rounds == 0 then None
    else
      var medium := (higher - lower) / 2;
      var testing := table[lower + medium].ip;
      if testing.text == ip.text then Some(lower + medium)
      else if IsMajorIP(testing, ip) then Halving(table, ip, lower, higher - medium, rounds - 1)
      else Halving(table, ip, lower + medium, higher, rounds - 1)
  }

  /** The linear search behind it runs over the whole table and keeps the last hit. */
  function LastMatch(table: seq<PortTable>, ip: Ip): (r: Option<nat>)
    ensures r.Some? ==> r.value < |table| && table[r.value].ip.text == ip.text
    ensures r.Some? ==> forall i :: r.value < i < |table| ==> table[i].ip.text != ip.text
    ensures r.None? ==> forall i :: 0 <= i < |table| ==> table[i].ip.text != ip.text
  {
    if table == [] then None
    else if table[|table| - 1].ip.text == ip.text then Some(|table| - 1)
    else LastMatch(table[..|table| - 1], ip)
  }

  function HalvingAll(table: seq<PortTable>, ip: Ip): Option<nat> {
    if table == [] then None else Halving(table, ip, 0, |table|, |table|)
  }

  /** getNodeFromPortsTable(); None where it reports an unknown node. */
  function Lookup(table: seq<PortTable>, ip: Ip): Option<nat> {
    if |table| == 1 then Some(0)
    else if HalvingAll(table, ip).Some? then HalvingAll(table, ip) else LastMatch(table, ip)
  }

  /** The answer of a linear scan: an entry with that address, or none when there is none. */
  predicate Right(table: seq<PortTable>, ip: Ip, r: Option<nat>) {
    if r.Some? then r.value < |table| && table[r.value].ip.text == ip.text
    else forall i :: 0 <= i < |table| ==> table[i].ip.text != ip.text
  }

  /** For a table in any order the lookup is right, for registered and unregistered
      addresses, exactly when the table does not consist of one other node. */
  lemma LookupRightExactly(table: seq<PortTable>, ip: Ip)
    ensures Right(table, ip, Lookup(table, ip)) <==> |table| != 1 || table[0].ip.text == ip.text
  {
  }

  /** With pairwise distinct node addresses it is the one entry a linear scan finds. */
  lemma LookupIsLinearScan(table: seq<PortTable>, ip: Ip)
    requires |table| != 1
    requires forall i, j :: 0 <= i < j < |table| ==> table[i].ip.text != table[j].ip.text
    ensures Lookup(table, ip) == LastMatch(table, ip)
  {
    LookupRightExactly(table, ip);
    OnlyOneRight(table, ip, Lookup(table, ip), LastMatch(table, ip));
  }

  lemma OnlyOneRight(table: seq<PortTable>, ip: Ip, r: Option<nat>, s: Option<nat>)
    requires forall i, j :: 0 <= i < j < |table| ==> table[i].ip.text != table[j].ip.text
    requires Right(table, ip, r) && Right(table, ip, s)
    ensures r == s
  {
  }

  /** The only node answers for every address. */
  lemma SingleNodeAnswersAll()
    ensures var table := [PortTable(Ip("10.0.0.1", Quad(10, 0, 0, 1)), 0)];
            var ip := Ip("10.0.0.2", Quad(10, 0, 0, 2));
            Lookup(table, ip) == Some(0) && !Right(table, ip, Lookup(table, ip))
  {
  }

  // ------------------------------------------- exactly when halving is enough

  /** The positions probed on the way to `target` when no probe misleads; they depend on
      the size of the range only. */
  function Path(target: nat, lower: nat, higher: nat): (p: seq<nat>)
    requires lower <= target < higher
    ensures forall i :: 0 <= i < |p| ==> lower <= p[i] < higher && p[i] != target
    decreases higher - lower
  {
    var medium := (higher - lower) / 2;
    var mid := lower + medium;
    if mid == target then []
    else if target < mid then [mid] + Path(target, lower, higher - medium)
    else [mid] + Path(target, mid, higher)
  }

  /** The entry at `mid` sends a search for the one at `target` to the right side. */
  predicate PointsTo(table: seq<PortTable>, mid: nat, target: nat)
    requires mid < |table| && target < |table|
  {
    IsMajorIP(table[mid].ip, table[target].ip) <==> target < mid
  }

  predicate UniqueText(table: seq<PortTable>, target: nat)
    requires target < |table|
  {
    forall i :: 0 <= i < |table| && i != target ==> table[i].ip.text != table[target].ip.text
  }

  lemma {:induction false} OutsideIsMissed(table: seq<PortTable>, target: nat, lower: nat, higher: nat, rounds: nat)
    requires lower < higher <= |table| && target < |table| && UniqueText(table, target)
    requires !(lower <= target < higher)
    ensures Halving(table, table[target].ip, lower, higher, rounds) == None
    decreases rounds
  {
    if rounds > 0 {
      var medium := (higher - lower) / 2;
      OutsideIsMissed(table, target, lower, higher - medium, rounds - 1);
      OutsideIsMissed(table, target, lower + medium, higher, rounds - 1);
    }
  }

  /** Every probe of the path points to the right side. */
  predicate Straight(table: seq<PortTable>, target: nat, path: seq<nat>)
    requires target < |table| && forall i :: 0 <= i < |path| ==> path[i] < |table|
  {
    forall i :: 0 <= i < |path| ==> PointsTo(table, path[i], target)
  }

  lemma StraightSplits(table: seq<PortTable>, target: nat, mid: nat, rest: seq<nat>)
    requires target < |table| && mid < |table| && forall i :: 0 <= i < |rest| ==> rest[i] < |table|
    ensures forall i :: 0 <= i < |[mid] + rest| ==> ([mid] + rest)[i] < |table|
    ensures Straight(table, target, [mid] + rest) <==> PointsTo(table, mid, target) && Straight(table, target, rest)
  {
    assert ([mid] + rest)[0] == mid;
    assert forall i :: 0 <= i < |rest| ==> rest[i] == ([mid] + rest)[i + 1];
  }

  /** One round of the loop that probes `mid`. */
  lemma Round(table: seq<PortTable>, target: nat, lower: nat, higher: nat, rounds: nat)
    requires lower < higher <= |table| && target < |table| && 0 < rounds && UniqueText(table, target)
    ensures var medium := (higher - lower) / 2;
            lower + medium != target ==>
              Halving(table, table[target].ip, lower, higher, rounds)
              == if IsMajorIP(table[lower + medium].ip, table[target].ip)
                 then Halving(table, table[target].ip, lower, higher - medium, rounds - 1)
                 else Halving(table, table[target].ip, lower + medium, higher, rounds - 1)
  {
  }

  predicate Decided(table: seq<PortTable>, target: nat, lower: nat, higher: nat, rounds: nat)
    requires lower <= target < higher <= |table|
  {
    Halving(table, table[target].ip, lower, higher, rounds)
    == if Straight(table, target, Path(target, lower, higher)) then Some(target) else None
  }

  lemma TurnsLeft(table: seq<PortTable>, target: nat, lower: nat, higher: nat, rounds: nat)
    requires lower <= target < higher <= |table| && 0 < rounds && UniqueText(table, target)
    requires var medium := (higher - lower) / 2;
             target < lower + medium && Decided(table, target, lower, higher - medium, rounds - 1)
    ensures Decided(table, target, lower, higher, rounds)
  {
    var medium := (higher - lower) / 2;
    Round(table, target, lower, higher, rounds);
    StraightSplits(table, target, lower + medium, Path(target, lower, higher - medium));
    OutsideIsMissed(table, target, lower + medium, higher, rounds - 1);
  }

  lemma TurnsRight(table: seq<PortTable>, target: nat, lower: nat, higher: nat, rounds: nat)
    requires lower <= target < higher <= |table| && 0 < rounds && UniqueText(table, target)
    requires var medium := (higher - lower) / 2;
             lower + medium < target && Decided(table, target, lower + medium, higher, rounds - 1)
    ensures Decided(table, target, lower, higher, rounds)
  {
    var medium := (higher - lower) / 2;
    Round(table, target, lower, higher, rounds);
    StraightSplits(table, target, lower + medium, Path(target, lower + medium, higher));
    OutsideIsMissed(table, target, lower, higher - medium, rounds - 1);
  }

  lemma {:induction false} FoundOnPath(table: seq<PortTable>, target: nat, lower: nat, higher: nat, rounds: nat)
    requires lower <= target < higher <= |table| && higher - lower <= rounds && UniqueText(table, target)
    ensures Decided(table, target, lower, higher, rounds)
    decreases rounds
  {
    var medium := (higher - lower) / 2;
    if target < lower + medium {
      FoundOnPath(table, target, lower, higher - medium, rounds - 1);
      TurnsLeft(table, target, lower, higher, rounds);
    } else if lower + medium < target {
      FoundOnPath(table, target, lower + medium, higher, rounds - 1);
      TurnsRight(table, target, lower, higher, rounds);
    }
  }

  predicate DistinctAddresses(table: seq<PortTable>) {
    forall i, j :: 0 <= i < j < |table| ==> Address(table[i]) != Address(table[j])
  }

  /** Equal texts read as equal numbers. */
  predicate Consistent(table: seq<PortTable>) {
    forall i, j :: 0 <= i < |table| && 0 <= j < |table| && table[i].ip.text == table[j].ip.text ==>
      Address(table[i]) == Address(table[j])
  }

  lemma MajorBoth(a: Quad, b: Quad)
    requires Major(a, b) && Major(b, a)
    ensures a == b
  {
  }

  /** A probe tells on which side of it the target is. */
  lemma ProbeDirects(table: seq<PortTable>, mid: nat, target: nat)
    requires Sorted(table) && DistinctAddresses(table) && Consistent(table)
    requires mid < |table| && target < |table| && mid != target
    ensures table[mid].ip.text != table[target].ip.text
    ensures IsMajorIP(table[mid].ip, table[target].ip) <==> target < mid
  {
    assert Address(table[mid]) != Address(table[target]);
    if mid < target && IsMajorIP(table[mid].ip, table[target].ip) {
      MajorBoth(Address(table[mid]), Address(table[target]));
    }
  }

  /** In a sorted table of distinct addresses the halving loop keeps the node inside its
      range and finds it with as many rounds as the range is long. */
  lemma HalvingFinds(table: seq<PortTable>, target: nat, lower: nat, higher: nat, rounds: nat)
    requires Sorted(table) && DistinctAddresses(table) && Consistent(table)
    requires lower <= target < higher <= |table| && higher - lower <= rounds
    ensures Halving(table, table[target].ip, lower, higher, rounds) == Some(target)
  {
    forall mid | 0 <= mid < |table| && mid != target
      ensures table[mid].ip.text != table[target].ip.text && PointsTo(table, mid, target)
    {
      ProbeDirects(table, mid, target);
    }
    FoundOnPath(table, target, lower, higher, rounds);
  }

  /** Properties of pairs of entries do not depend on the order of the table. */
  lemma {:induction false} PairsOfPermutation(es: seq<PortTable>, table: seq<PortTable>, i: nat, j: nat)
    returns (p: nat, q: nat)
    requires multiset(es) == multiset(table) && i < |table| && j < |table| && i != j
    ensures p < |es| && q < |es| && p != q && es[p] == table[i] && es[q] == table[j]
  {
    assert table[i] in multiset(es) && table[j] in multiset(es);
    p :| p < |es| && es[p] == table[i];
    if table[i] != table[j] {
      q :| q < |es| && es[q] == table[j];
    } else {
      var x := table[i];
      Twice(table, i, j);
      assert es == es[..p] + [x] + es[p + 1..];
      assert multiset(es)[x] == multiset(es[..p])[x] + 1 + multiset(es[p + 1..])[x];
      if x in es[..p] {
        q :| q < p && es[..p][q] == x;
      } else {
        assert x in es[p + 1..];
        var k :| 0 <= k < |es| - p - 1 && es[p + 1..][k] == x;
        q := p + 1 + k;
      }
    }
  }

  lemma Twice(table: seq<PortTable>, i: nat, j: nat)
    requires i < |table| && j < |table| && i != j && table[i] == table[j]
    ensures multiset(table)[table[i]] >= 2
  {
    var (a, b) := if i < j then (i, j) else (j, i);
    assert table == table[..b] + [table[b]] + table[b + 1..];
    assert table[a] in table[..b];
  }

  lemma PermutationKeeps(es: seq<PortTable>, table: seq<PortTable>)
    requires multiset(es) == multiset(table)
    ensures DistinctAddresses(es) ==> DistinctAddresses(table)
    ensures Consistent(es) ==> Consistent(table)
  {
    forall i, j | 0 <= i < |table| && 0 <= j < |table| && i != j
      ensures DistinctAddresses(es) ==> Address(table[i]) != Address(table[j])
      ensures Consistent(es) && table[i].ip.text == table[j].ip.text ==> Address(table[i]) == Address(table[j])
    {
      var p, q := PairsOfPermutation(es, table, i, j);
    }
  }

  /** Whatever the order of registration: for comparable nodes with distinct addresses the
      linear search is never needed. */
  lemma RegisteredAreFoundByHalving(es: seq<PortTable>, target: nat)
    requires Comparable(es) && DistinctAddresses(es) && Consistent(es) && target < |RegisterAll(es)|
    ensures HalvingAll(RegisterAll(es), RegisterAll(es)[target].ip) == Some(target)
  {
    RegisterAllSorts(es);
    PermutationKeeps(es, RegisterAll(es));
    HalvingFinds(RegisterAll(es), target, 0, |RegisterAll(es)|, |RegisterAll(es)|);
  }

  /** In a table of any order, the halving loop finds a node whose text no other node has
      exactly when every node on the path to it points to the right side; otherwise it
      finds nothing, and the linear search is needed. */
  lemma HalvingFindsExactly(table: seq<PortTable>, target: nat)
    requires target < |table| && UniqueText(table, target)
    ensures HalvingAll(table, table[target].ip) == (
              if Straight(table, target, Path(target, 0, |table|)) then Some(target) else None)
    ensures |table| > 1 ==> Lookup(table, table[target].ip) == Some(target)
  {
    FoundOnPath(table, target, 0, |table|, |table|);
  }

  predicate AllFound(table: seq<PortTable>) {
    forall t :: 0 <= t < |table| ==> HalvingAll(table, table[t].ip) == Some(t)
  }

  lemma PairIsFound(x: PortTable, y: PortTable)
    requires x.ip.text != y.ip.text
    ensures AllFound([x, y]) <==> IsMajorIP(y.ip, x.ip)
  {
    HalvingFindsExactly([x, y], 0);
    HalvingFindsExactly([x, y], 1);
    assert Path(0, 0, 1) == [] && Path(0, 0, 2) == [1] && Path(1, 0, 2) == [];
    assert PointsTo([x, y], 1, 0) <==> IsMajorIP(y.ip, x.ip);
    var table := [x, y];
    assert AllFound(table) <==> HalvingAll(table, table[0].ip) == Some(0) && HalvingAll(table, table[1].ip) == Some(1);
  }

  lemma RegisterPair(a: PortTable, b: PortTable)
    ensures RegisterAll([a, b]) == if IsMajorIP(b.ip, a.ip) then [a, b] else [b, a]
  {
    assert [a, b][..1] == [a] && [a][..0] == [];
    assert RegisterAll([a]) == Register([], a);
    assert RegisterAll([a, b]) == Register([a], b);
    assert [a][1..] == [];
  }

  /** Two nodes are found by halving alone, in whichever order they are registered, exactly
      when their addresses are comparable. */
  lemma PairNeedsComparability(a: PortTable, b: PortTable)
    requires a.ip.text != b.ip.text
    ensures AllFound(RegisterAll([a, b])) && AllFound(RegisterAll([b, a]))
            <==> IsMajorIP(a.ip, b.ip) || IsMajorIP(b.ip, a.ip)
  {
    RegisterPair(a, b);
    RegisterPair(b, a);
    PairIsFound(a, b);
    PairIsFound(b, a);
  }

  /** An instance: 2.1.0.0 is registered in front of 1.2.0.0 and missed. */
  lemma IncomparableIsMissed()
    ensures var a, b := PortTable(Ip("1.2.0.0", Quad(1, 2, 0, 0)), 0), PortTable(Ip("2.1.0.0", Quad(2, 1, 0, 0)), 1);
            var table := RegisterAll([a, b]);
            table == [b, a] && HalvingAll(table, b.ip) == None && Lookup(table, b.ip) == Some(0)
  {
    var a, b := PortTable(Ip("1.2.0.0", Quad(1, 2, 0, 0)), 0), PortTable(Ip("2.1.0.0", Quad(2, 1, 0, 0)), 1);
    assert "1.2.0.0"[0] != "2.1.0.0"[0];
    RegisterPair(a, b);
    HalvingFindsExactly([b, a], 0);
    assert Path(0, 0, 1) == [] && Path(0, 0, 2)[0] == 1;
    assert !PointsTo([b, a], 1, 0);
  }

  lemma RegisterBehind(table: seq<PortTable>, i: nat, e: PortTable)
    requires i < |table| && IsMajorIP(e.ip, table[i].ip)
    ensures table[..i] + Register(table[i..], e) == table[..i + 1] + Register(table[i + 1..], e)
  {
    assert table[i..][1..] == table[i + 1..];
    assert table[..i + 1] == table[..i] + [table[i]];
    Associate(table[..i], [table[i]], Register(table[i + 1..], e));
  }
}
