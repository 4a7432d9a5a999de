/** The counter behind virtual addresses, kept as text and re-read for every allocation. */
module VirtualIps {
  import opened Wrappers
  import opened Text
  import opened IpText

  /** The octets of this counter run from 0 to 256. */
  predicate Octets(q: Quad) {
    0 <= q.first <= 256 && 0 <= q.second <= 256 && 0 <= q.third <= 256 && 0 <= q.fourth <= 256
  }

  function Number(q: Quad): int {
    ((q.first * 257 + q.second) * 257 + q.third) * 257 + q.fourth
  }

  const LAST: int := 257 * 257 * 257 * 257 - 1

  /** incVirtualIP(); None where it reports an error. */
  function Inc(q: Quad): Option<Quad> {
    if q.fourth < 256 then Some(q.(fourth := q.fourth + 1))
    else if q.third < 256 then Some(q.(third := q.third + 1, fourth := 0))
    else if q.second < 256 then Some(q.(second := q.second + 1, third := 0, fourth := 0))
    else if q.first < 256 then Some(q.(first := q.first + 1, second := 0, third := 0, fourth := 0))
    else None
  }

  /** The carry counter adds exactly one, until every octet is 256. */
  lemma IncAddsOne(q: Quad)
    requires Octets(q)
    ensures Inc(q).None? <==> Number(q) == LAST
    ensures Inc(q).Some? ==> Octets(Inc(q).value) && Number(Inc(q).value) == Number(q) + 1
  {
  }

  lemma NumberInjective(p: Quad, q: Quad)
    requires Octets(p) && Octets(q) && Number(p) == Number(q)
    ensures p == q
  {
  }

  lemma {:induction false} DecWidth(n: nat)
    requires n < 1000
    ensures |Dec(n)| <= 3
  {
    if n >= 10 {
      if n / 10 >= 10 { assert |Dec(n / 10 / 10)| == 1; }
    }
  }

  /** With its terminator the printed address fits the 16 characters it is copied to. */
  lemma PrintFits(q: Quad)
    requires Octets(q)
    ensures |Print(q)| + 1 <= 16
  {
    DecWidth(q.first);
    DecWidth(q.second);
    DecWidth(q.third);
    DecWidth(q.fourth);
  }

  class VirtualIPs {
    var first: int
    var second: int
    var third: int
    var fourth: int

    function View(): Quad
      reads this
    {
      Quad(first, second, third, fourth)
    }

    constructor ()
      ensures View() == Quad(-1, -1, -1, -1)
    {
      first, second, third, fourth := -1, -1, -1, -1;
    }

    /** `before` is what the local variables of stringTovirtualIP() happen to hold. */
    method SetVirtualIP(newVIP: string, before: Quad)
      modifies this
      ensures View() == Filled(newVIP, before)
    {
      var ip := Filled(newVIP, before);
      first := ip.first;
      second := ip.second;
      third := ip.third;
      fourth := ip.fourth;
    }

    /** The empty text reports that the last address has been passed. */
    method IncVirtualIP() returns (vip: string)
      modifies this
      ensures Inc(old(View())).Some? ==> View() == Inc(old(View())).value && vip == Print(View())
      ensures Inc(old(View())).None? ==> View() == old(View()) && vip == ""
    {
      var error := false;
      vip := "";
      if fourth < 256 {
        fourth := fourth + 1;
      } else {
        if third < 256 {
          third := third + 1;
          fourth := 0;
        } else {
          if second < 256 {
            second := second + 1;
            third := 0;
            fourth := 0;
          } else {
            if first < 256 {
              first := first + 1;
              second := 0;
              third := 0;
              fourth := 0;
            } else {
              error := true;
            }
          }
        }
      }
      if !error {
        vip := Print(View());
      }
    }
  }

  // ---------------------------------------------------------------- allocation

  datatype Cell = Cell(ipNode: string, virtualIP: string, vmID: int)

  /** ipsUserSet. */
  datatype UserSet = UserSet(userID: int, holesIP: seq<string>, cells: seq<Cell>, lastIP: string)

  datatype Issued = Issued(user: UserSet, ip: string)

  function Next(lastIP: string, before: Quad): string {
    var i := Inc(Filled(lastIP, before));
    if i.None? then "" else Print(i.value)
  }

  /** newVIP(): the oldest hole, or the address after the last one issued. */
  function NewVIP(u: UserSet, before: Quad): Issued {
    if u.holesIP != [] then Issued(u.(holesIP := u.holesIP[1..]), u.holesIP[0])
    else Issued(u.(lastIP := Next(u.lastIP, before)), Next(u.lastIP, before))
  }

  /** The first entry of a user, |us| when there is none. */
  function EntryOf(us: seq<UserSet>, userID: int): (i: nat)
    ensures i <= |us| && (i < |us| ==> us[i].userID == userID)
    ensures forall j :: 0 <= j < i ==> us[j].userID != userID
  {
    if us == [] || us[0].userID == userID then 0 else 1 + EntryOf(us[1..], userID)
  }

  /** What the variables that sscanf() fills hold before each allocation. */
  type Leftovers = nat -> Quad

  /** k allocations in a row. */
  function After(u: UserSet, before: Leftovers, k: nat): UserSet {
    if k == 0 then u else NewVIP(After(u, before, k - 1), before(k)).user
  }

  /** The k-th address issued, counting from 1. */
  function Issue(u: UserSet, before: Leftovers, k: nat): string
    requires k > 0
  {
    NewVIP(After(u, before, k - 1), before(k)).ip
  }

  /** A user without holes whose counter stands at `basis`. */
  predicate StandsAt(u: UserSet, basis: Quad) {
    u.holesIP == [] && ScanQuad(u.lastIP) == Some(basis) && Octets(basis)
  }

  lemma OneIssue(u: UserSet, basis: Quad, before: Quad)
    requires StandsAt(u, basis) && Number(basis) < LAST
    ensures StandsAt(NewVIP(u, before).user, Inc(basis).value)
    ensures NewVIP(u, before).ip == Print(Inc(basis).value)
  {
    FilledWhenRead(u.lastIP, before);
    IncAddsOne(basis);
    ScanOfPrint(Inc(basis).value);
  }

  lemma {:induction false} CounterRuns(u: UserSet, before: Leftovers, basis: Quad, k: nat) returns (q: Quad)
    requires StandsAt(u, basis) && Number(basis) + k <= LAST
    ensures StandsAt(After(u, before, k), q) && Number(q) == Number(basis) + k
    ensures k > 0 ==> Issue(u, before, k) == Print(q)
  {
    q := basis;
    if k > 0 {
      var p := CounterRuns(u, before, basis, k - 1);
      q := Inc(p).value;
      IncAddsOne(p);
      OneIssue(After(u, before, k - 1), p, before(k));
    }
  }

  /** Freed addresses are handed out first, oldest first and each once; the counter does not move
      until they are used up, and goes on from where it stood then. */
  lemma {:induction false} HolesFirst(u: UserSet, before: Leftovers, k: nat)
    requires k <= |u.holesIP|
    ensures After(u, before, k) == u.(holesIP := u.holesIP[k..])
    ensures 0 < k ==> Issue(u, before, k) == u.holesIP[k - 1]
  {
    if k > 0 {
      HolesFirst(u, before, k - 1);
      assert u.holesIP[k - 1..][1..] == u.holesIP[k..];
    } else {
      assert u.holesIP[0..] == u.holesIP;
    }
  }

  lemma {:induction false} AfterSplits(u: UserSet, before: Leftovers, later: Leftovers, n: nat, k: nat)
    requires forall i: nat :: later(i) == before(n + i)
    ensures After(u, before, n + k) == After(After(u, before, n), later, k)
  {
    if k > 0 {
      AfterSplits(u, before, later, n, k - 1);
      assert later(k) == before(n + k);
    }
  }

  /** When the holes are used up, the user is as one without holes from the start. */
  lemma AfterTheHoles(u: UserSet, before: Leftovers, later: Leftovers, k: nat)
    requires 0 < k && forall i: nat :: later(i) == before(|u.holesIP| + i)
    ensures Issue(u, before, |u.holesIP| + k) == Issue(u.(holesIP := []), later, k)
  {
    var n := |u.holesIP|;
    HolesUsedUp(u, before);
    AfterSplits(u, before, later, n, k - 1);
    assert later(k) == before(n + k);
  }

  lemma HolesUsedUp(u: UserSet, before: Leftovers)
    ensures After(u, before, |u.holesIP|) == u.(holesIP := [])
  {
    HolesFirst(u, before, |u.holesIP|);
    assert u.holesIP[|u.holesIP|..] == [];
  }

  /** The k-th hole-free allocation is the basis plus k. */
  lemma IssueIsBasisPlus(u: UserSet, before: Leftovers, basis: Quad, k: nat)
    requires StandsAt(u, basis) && 0 < k && Number(basis) + k <= LAST
    ensures ScanQuad(Issue(u, before, k)).Some?
    ensures var q := ScanQuad(Issue(u, before, k)).value;
            Octets(q) && Number(q) == Number(basis) + k && Issue(u, before, k) == Print(q)
  {
    var q := CounterRuns(u, before, basis, k);
    ScanOfPrint(q);
  }

  /** No address is issued twice, as texts. */
  lemma IssuesAreDistinct(u: UserSet, before: Leftovers, basis: Quad, j: nat, k: nat)
    requires StandsAt(u, basis) && 0 < j < k && Number(basis) + k <= LAST
    ensures Issue(u, before, j) != Issue(u, before, k)
  {
    IssueIsBasisPlus(u, before, basis, j);
    IssueIsBasisPlus(u, before, basis, k);
  }

  /** The first allocation past the last address issues the empty text; the one behind it
      counts on from whatever the variables held. */
  lemma ExhaustedIssuesNothing(u: UserSet, before: Leftovers, basis: Quad)
    requires StandsAt(u, basis)
    ensures var n := LAST - Number(basis) + 1;
            && Issue(u, before, n) == ""
            && Issue(u, before, n + 1) == var i := Inc(before(n + 1)); if i.None? then "" else Print(i.value)
  {
    var n := LAST - Number(basis) + 1;
    var q := CounterRuns(u, before, basis, n - 1);
    IncAddsOne(q);
    FilledWhenRead(After(u, before, n - 1).lastIP, before(n));
    assert After(u, before, n).lastIP == "" && After(u, before, n).holesIP == [];
    assert Filled("", before(n + 1)) == before(n + 1);
  }

  /** An address whose numbers fit in octets. */
  predicate IsIPv4(text: string) {
    var q := ScanQuad(text);
    q.Some? && IsIPv4Quad(q.value)
  }

  predicate IsIPv4Quad(q: Quad) {
    0 <= q.first <= 255 && 0 <= q.second <= 255 && 0 <= q.third <= 255 && 0 <= q.fourth <= 255
  }

  lemma IssueInLastOctet(u: UserSet, before: Leftovers, basis: Quad, k: nat)
    requires StandsAt(u, basis) && IsIPv4Quad(basis) && 0 < k && basis.fourth + k <= 256
    ensures Issue(u, before, k) == Print(basis.(fourth := basis.fourth + k))
    ensures IsIPv4(Issue(u, before, k)) <==> basis.fourth + k <= 255
  {
    var q := CounterRuns(u, before, basis, k);
    NumberInjective(q, basis.(fourth := basis.fourth + k));
    ScanOfPrint(q);
  }

  /** The counter carries at 257. From an IPv4 address it issues n IPv4 addresses exactly
      when they fit behind the last octet of that address. */
  lemma IssuesIPv4Exactly(u: UserSet, before: Leftovers, basis: Quad, n: nat)
    requires StandsAt(u, basis) && IsIPv4Quad(basis)
    ensures (forall k :: 1 <= k <= n ==> IsIPv4(Issue(u, before, k))) <==> basis.fourth + n <= 255
  {
    if basis.fourth + n <= 255 {
      forall k | 1 <= k <= n ensures IsIPv4(Issue(u, before, k)) {
        IssueInLastOctet(u, before, basis, k);
      }
    } else {
      var k := 256 - basis.fourth;
      IssueInLastOctet(u, before, basis, k);
      assert 1 <= k <= n && !IsIPv4(Issue(u, before, k));
    }
  }
}
