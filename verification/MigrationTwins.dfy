/** A run with migrations against the same traffic without any. */
module MigrationTwins {
  import opened CommIds
  import opened Migration
  import opened MigrationRuns

  // -------------------------------------- the traffic without the migrations

  /** Requests, responses and changes of identity; not what blocks and unblocks. */
  predicate IsTraffic(e: Event) {
    IsOrdinary(e) || (e.Arrive? && e.msg.isResponse) || e.SetId?
  }

  function Calm(events: seq<Event>): seq<Event> {
    if events == [] then []
    else Calm(events[..|events| - 1]) + if IsTraffic(events[|events| - 1]) then [events[|events| - 1]] else []
  }

  /** An ordinary request as it was stamped, and whether it was held back. */
  datatype Arrived = Arrived(msg: Msg, held: bool)

  function ArrivedIn(d: Daemon, events: seq<Event>): seq<Arrived> {
    if events == [] then []
    else
      var n := |events| - 1;
      var now := After(d, events[..n]);
      ArrivedIn(d, events[..n])
        + if IsOrdinary(events[n]) then [Arrived(Stamp(now, events[n].msg), now.active)] else []
  }

  function Leaving(a: Arrived): Sent {
    if a.held then Releasing(a.msg) else Sending(a.msg)
  }

  /** What leaves for these requests. */
  function LeaveAll(arrived: seq<Arrived>): seq<Sent> {
    seq(|arrived|, i requires 0 <= i < |arrived| => Leaving(arrived[i]))
  }

  /** What would leave if none of them were held back. */
  function DirectAll(arrived: seq<Arrived>): seq<Sent> {
    seq(|arrived|, i requires 0 <= i < |arrived| => Sending(arrived[i].msg))
  }

  /** The test whether rewriting leaves a stamped request as it is. */
  predicate Unchanged(m: Msg) {
    m.origin.FromApps? ==>
      && m.commId == m.gate
      && (m.kind.Net? ==> m.virtual == Virtual(if m.virtual.user == -1 then m.uid else m.virtual.user, m.address))
  }

  lemma OnlyRewritingDiffers(m: Msg)
    ensures Releasing(m) == Sending(m) <==> Unchanged(m)
    ensures Plain(Releasing(m).msg) == Plain(Sending(m).msg)
  {
  }

  // -------------------------------------- the twins

  /** With what it holds back counted and forgotten, the one daemon is the other, apart
      from what the two have sent and answered to orders to stop. */
  predicate Twins(actual: Daemon, calm: Daemon) {
    && calm == actual.(active := false, pending := [], counters := CountAll(actual.counters, actual.pending),
                     sent := calm.sent, notices := calm.notices)
    && AllRequests(actual.pending)
    && (actual.active || actual.pending == [])
  }

  lemma {:induction false} CountAllSnoc(c: Counters, ms: seq<Msg>, m: Msg)
    ensures CountAll(c, ms + [m]) == CountOne(CountAll(c, ms), m)
    decreases |ms|
  {
    if ms == [] {
      assert [m][1..] == [] && ms + [m] == [m];
    } else {
      assert (ms + [m])[1..] == ms[1..] + [m];
      CountAllSnoc(CountOne(c, ms[0]), ms[1..], m);
    }
  }

  lemma CountsCommute(c: Counters, m: Msg, kind: Kind)
    ensures Count(CountOne(c, m), kind, -1) == CountOne(Count(c, kind, -1), m)
  {
  }

  lemma {:induction false} CountAllCommutes(c: Counters, ms: seq<Msg>, kind: Kind)
    ensures Count(CountAll(c, ms), kind, -1) == CountAll(Count(c, kind, -1), ms)
    decreases |ms|
  {
    if ms != [] {
      CountsCommute(c, ms[0], kind);
      CountAllCommutes(CountOne(c, ms[0]), ms[1..], kind);
    }
  }

  lemma OrdinaryIs(d: Daemon, m: Msg)
    requires IsOrdinary(Arrive(m))
    ensures var s, d' := Stamp(d, m), Step(d, Arrive(m));
            d' == if d.active then d.(pending := d.pending + [s], comm := Remember(d.comm, s))
                  else d.(sent := d.sent + [Sending(s)], counters := CountOne(d.counters, s),
                          comm := Remember(d.comm, s))
  {
  }

  lemma ReleaseSnoc(sent: seq<Sent>, ms: seq<Msg>, m: Msg)
    ensures sent + ReleaseAll(ms + [m]) == sent + ReleaseAll(ms) + [Releasing(m)]
  {
  }

  /** What a daemon has sent and what it would send if activated now. */
  function SentSoon(d: Daemon): seq<Sent> {
    d.sent + ReleaseAll(d.pending)
  }

  lemma OrdinaryKeepsTwins(actual: Daemon, calm: Daemon, m: Msg)
    requires Twins(actual, calm) && IsOrdinary(Arrive(m))
    ensures var r, c := Step(actual, Arrive(m)), Step(calm, Arrive(m));
            && Twins(r, c) && c.sent == calm.sent + [Sending(Stamp(actual, m))] && c.notices == calm.notices
            && SentSoon(r) == SentSoon(actual) + [Leaving(Arrived(Stamp(actual, m), actual.active))]
  {
    var s := Stamp(actual, m);
    OrdinaryIs(actual, m);
    OrdinaryIs(calm, m);
    if actual.active {
      CountAllSnoc(actual.counters, actual.pending, s);
      ReleaseSnoc(actual.sent, actual.pending, s);
    } else {
      assert ReleaseAll([]) == [];
    }
  }

  lemma ResponseKeepsTwins(actual: Daemon, calm: Daemon, m: Msg)
    requires Twins(actual, calm) && m.isResponse
    ensures var r, c := Step(actual, Arrive(m)), Step(calm, Arrive(m));
            Twins(r, c) && c.sent == calm.sent && c.notices == calm.notices && SentSoon(r) == SentSoon(actual)
  {
    CountAllCommutes(actual.counters, actual.pending, m.kind);
  }

  lemma ActivationKeepsTwins(actual: Daemon, calm: Daemon)
    requires Twins(actual, calm)
    ensures Twins(Activate(actual), calm) && SentSoon(Activate(actual)) == SentSoon(actual)
  {
    FlushSends(actual.(active := false));
    assert ReleaseAll([]) == [];
  }

  lemma StepKeepsTwins(actual: Daemon, calm: Daemon, e: Event)
    requires Twins(actual, calm)
    ensures var r, c := Step(actual, e), if IsTraffic(e) then Step(calm, e) else calm;
            && Twins(r, c) && c.notices == calm.notices
            && c.sent == calm.sent + (if IsOrdinary(e) then [Sending(Stamp(actual, e.msg))] else [])
            && SentSoon(r) == SentSoon(actual)
                              + if IsOrdinary(e) then [Leaving(Arrived(Stamp(actual, e.msg), actual.active))] else []
  {
    if IsOrdinary(e) {
      OrdinaryKeepsTwins(actual, calm, e.msg);
    } else if e.Arrive? && e.msg.isResponse {
      ResponseKeepsTwins(actual, calm, e.msg);
    } else if Activates(e) {
      ActivationKeepsTwins(actual, calm);
    }
  }

  lemma DirectSnoc(sent: seq<Sent>, arrived: seq<Arrived>, a: Arrived)
    ensures sent + DirectAll(arrived + [a]) == sent + DirectAll(arrived) + [Sending(a.msg)]
    ensures sent + LeaveAll(arrived + [a]) == sent + LeaveAll(arrived) + [Leaving(a)]
  {
  }

  lemma CalmStep(d: Daemon, events: seq<Event>, e: Event)
    requires events != [] && events[|events| - 1] == e
    ensures var calm := After(d, Calm(events[..|events| - 1]));
            After(d, Calm(events)) == if IsTraffic(e) then Step(calm, e) else calm
  {
    var before := Calm(events[..|events| - 1]);
    assert before + [] == before;
    assert (before + [e])[..|before|] == before;
  }

  lemma ArrivedStep(sent: seq<Sent>, d: Daemon, events: seq<Event>, now: Daemon, e: Event)
    requires events != [] && events[|events| - 1] == e && now == After(d, events[..|events| - 1])
    ensures var before, all := ArrivedIn(d, events[..|events| - 1]), ArrivedIn(d, events);
            var a := if IsOrdinary(e) then [Arrived(Stamp(now, e.msg), now.active)] else [];
            && sent + DirectAll(all) == sent + DirectAll(before) + (if a == [] then [] else [Sending(a[0].msg)])
            && sent + LeaveAll(all) == sent + LeaveAll(before) + (if a == [] then [] else [Leaving(a[0])])
  {
    var before := ArrivedIn(d, events[..|events| - 1]);
    if IsOrdinary(e) {
      DirectSnoc(sent, before, Arrived(Stamp(now, e.msg), now.active));
    } else {
      assert before + [] == before;
    }
  }

  /** The daemon of a run and its twin that never sees the migrations. */
  lemma {:induction false} RunKeepsTwins(d: Daemon, events: seq<Event>)
    requires !d.active && d.pending == []
    ensures Twins(After(d, events), After(d, Calm(events))) && After(d, Calm(events)).notices == d.notices
    ensures After(d, Calm(events)).sent == d.sent + DirectAll(ArrivedIn(d, events))
    ensures SentSoon(After(d, events)) == d.sent + LeaveAll(ArrivedIn(d, events))
  {
    if events == [] {
      assert DirectAll([]) == [] && LeaveAll([]) == [] && ReleaseAll([]) == [];
    } else {
      var n := |events| - 1;
      var actual, e := After(d, events[..n]), events[n];
      RunKeepsTwins(d, events[..n]);
      StepKeepsTwins(actual, After(d, Calm(events[..n])), e);
      CalmStep(d, events, e);
      ArrivedStep(d.sent, d, events, actual, e);
    }
  }

  lemma Cancel<T>(a: seq<T>, b: seq<T>, c: seq<T>)
    ensures a + b == a + c <==> b == c
  {
    if a + b == a + c {
      assert b == (a + b)[|a|..];
      assert c == (a + c)[|a|..];
    }
  }

  lemma LeaveAsDirectExactly(arrived: seq<Arrived>)
    ensures LeaveAll(arrived) == DirectAll(arrived)
            <==> forall i :: 0 <= i < |arrived| && arrived[i].held ==> Unchanged(arrived[i].msg)
    ensures PlainSent(LeaveAll(arrived)) == PlainSent(DirectAll(arrived))
  {
    forall i | 0 <= i < |arrived|
      ensures LeaveAll(arrived)[i] == DirectAll(arrived)[i] <==> arrived[i].held ==> Unchanged(arrived[i].msg)
    {
      OnlyRewritingDiffers(arrived[i].msg);
    }
  }

  lemma PlainPrefix(sent: seq<Sent>, a: seq<Sent>, b: seq<Sent>)
    requires PlainSent(a) == PlainSent(b)
    ensures PlainSent(sent + a) == PlainSent(sent + b)
  {
    assert PlainSent(sent + a) == PlainSent(sent) + PlainSent(a);
    assert PlainSent(sent + b) == PlainSent(sent) + PlainSent(b);
  }

  /** A daemon that goes through any events, with any number of migrations, and ends
      unblocked has sent the same requests in the same order, by the same gates, and has
      the same books as one that sees the same requests, responses and identities and no
      migration; and it has sent the same messages exactly when direct forwarding would
      have rewritten none of the requests that were held back. */
  lemma MigrationIsTransparentExactly(d: Daemon, events: seq<Event>)
    requires !d.active && d.pending == [] && !After(d, events).active
    ensures var actual, calm, arrived := After(d, events), After(d, Calm(events)), ArrivedIn(d, events);
            && actual == calm.(sent := actual.sent, notices := actual.notices)
            && actual.sent == d.sent + LeaveAll(arrived) && calm.sent == d.sent + DirectAll(arrived)
            && PlainSent(actual.sent) == PlainSent(calm.sent)
            && (actual.sent == calm.sent
                <==> forall i :: 0 <= i < |arrived| && arrived[i].held ==> Unchanged(arrived[i].msg))
            && actual.notices == calm.notices + PreparedStops(d, events)
  {
    var arrived := ArrivedIn(d, events);
    RunKeepsTwins(d, events);
    StopsAnsweredExactly(d, events);
    assert ReleaseAll([]) == [];
    LeaveAsDirectExactly(arrived);
    PlainPrefix(d.sent, LeaveAll(arrived), DirectAll(arrived));
    Cancel(d.sent, LeaveAll(arrived), DirectAll(arrived));
  }

  // -------------------------------------- one block

  lemma {:induction false} AfterFront(d: Daemon, e: Event, events: seq<Event>)
    ensures After(d, [e] + events) == After(Step(d, e), events)
  {
    if events == [] {
      assert ([e] + events)[..0] == [];
    } else {
      AfterFront(d, e, events[..|events| - 1]);
      assert ([e] + events)[..|events|] == [e] + events[..|events| - 1];
    }
  }

  predicate AllTraffic(events: seq<Event>) {
    forall i :: 0 <= i < |events| ==> IsTraffic(events[i])
  }

  lemma {:induction false} CalmOfBlock(events: seq<Event>)
    requires AllTraffic(events)
    ensures Calm([Block] + events) == events
  {
    if events == [] {
      assert ([Block] + events)[..0] == [];
    } else {
      var n := |events| - 1;
      assert ([Block] + events)[..n + 1] == [Block] + events[..n];
      CalmOfBlock(events[..n]);
      assert events == events[..n] + [events[n]];
    }
  }

  lemma {:induction false} AllAreHeld(d: Daemon, events: seq<Event>)
    requires AllTraffic(events)
    ensures After(d, [Block] + events).active
    ensures PreparedStops(d, [Block] + events) == []
    ensures forall i :: 0 <= i < |ArrivedIn(d, [Block] + events)| ==> ArrivedIn(d, [Block] + events)[i].held
  {
    if events == [] {
      assert ([Block] + events)[..0] == [];
    } else {
      var n := |events| - 1;
      assert ([Block] + events)[..n + 1] == [Block] + events[..n];
      AllAreHeld(d, events[..n]);
    }
  }

  /** One migration: everything that arrives while the daemon is blocked is as if it had
      come to an unblocked one, once it is activated, exactly when rewriting would change
      none of the requests among it. */
  lemma OneMigrationExactly(d: Daemon, events: seq<Event>)
    requires !d.active && d.pending == [] && AllTraffic(events)
    ensures var open, held := After(d, events), Step(After(Step(d, Block), events), Unblock);
            var arrived := ArrivedIn(d, [Block] + events + [Unblock]);
            && held == open.(sent := d.sent + LeaveAll(arrived)) && open.sent == d.sent + DirectAll(arrived)
            && (held == open <==> forall i :: 0 <= i < |arrived| ==> Unchanged(arrived[i].msg))
  {
    var all := [Block] + events + [Unblock];
    assert all[..|events| + 1] == [Block] + events;
    AfterFront(d, Block, events);
    CalmOfBlock(events);
    AllAreHeld(d, events);
    assert Calm(all) == events;
    FlushKeepsBlocked(After(d, [Block] + events));
    MigrationIsTransparentExactly(d, all);
  }

  lemma {:induction false} FlushKeepsBlocked(d: Daemon)
    ensures Flush(d.(active := false)).active == false
    decreases |d.pending|
  {
    if d.pending != [] { FlushKeepsBlocked(SendPending(d, d.pending[0]).(pending := d.pending[1..])); }
  }
}
