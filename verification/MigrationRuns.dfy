/** What the message switch keeps in every run. */
module MigrationRuns {
  import opened CommIds
  import opened Migration

  /** A message without the fields the daemon writes. */
  function Plain(m: Msg): Msg {
    m.(commId := -1, uid := -1, pid := -1, virtual := Virtual(-1, m.address))
  }

  function PlainSent(sent: seq<Sent>): seq<Msg> {
    seq(|sent|, i requires 0 <= i < |sent| => Plain(sent[i].msg))
  }

  function PlainAll(ms: seq<Msg>): seq<Msg> {
    seq(|ms|, i requires 0 <= i < |ms| => Plain(ms[i]))
  }

  predicate IsOrdinary(e: Event) {
    e.Arrive? && !e.msg.isResponse && e.msg.operation.Ordinary?
  }

  /** The ordinary requests among the events, in order of arrival. */
  function Ordinaries(events: seq<Event>): seq<Msg> {
    if events == [] then []
    else Ordinaries(events[..|events| - 1])
         + if IsOrdinary(events[|events| - 1]) then [Plain(events[|events| - 1].msg)] else []
  }

  predicate Activates(e: Event) {
    e.Unblock? || (e.Arrive? && !e.msg.isResponse && e.msg.operation.ContainerActivation?)
  }

  /** Application requests of a kind that were forwarded. */
  function Requested(sent: seq<Sent>, kind: Kind): nat {
    if sent == [] then 0
    else Requested(sent[..|sent| - 1], kind)
         + if sent[|sent| - 1].ToOS? && sent[|sent| - 1].msg.kind == kind then 1 else 0
  }

  /** Responses of a kind that came back from one side. */
  function Answered(answers: seq<Msg>, kind: Kind, origin: Origin): nat {
    if answers == [] then 0
    else Answered(answers[..|answers| - 1], kind, origin)
         + if answers[|answers| - 1].kind == kind && answers[|answers| - 1].origin == origin then 1 else 0
  }

  predicate AllRequests(ms: seq<Msg>) {
    forall i :: 0 <= i < |ms| ==> !ms[i].isResponse
  }

  /** A request leaves on the side opposite to the one it came from, at the same position. */
  predicate Routed(s: Sent) {
    !s.msg.isResponse && s.gate == s.msg.gate && (s.ToApps? <==> s.msg.origin.FromOS?)
  }

  predicate BalancedFor(d: Daemon, kind: Kind)
    requires !kind.Other?
  {
    Counter(d.counters, kind)
    == Requested(d.sent, kind) - Answered(d.answers, kind, FromOS) - Answered(d.answers, kind, FromApps)
  }

  ghost predicate Balanced(d: Daemon) {
    forall kind: Kind :: !kind.Other? ==> BalancedFor(d, kind)
  }

  ghost predicate Sound(d: Daemon) {
    && (d.active || d.pending == [])
    && AllRequests(d.pending)
    && (forall i :: 0 <= i < |d.sent| ==> Routed(d.sent[i]))
    && Balanced(d)
  }

  /** What has been forwarded, then what is held back. */
  function Ledger(d: Daemon): seq<Msg> {
    PlainSent(d.sent) + PlainAll(d.pending)
  }

  lemma RequestedAppend(sent: seq<Sent>, s: Sent, kind: Kind)
    ensures Requested(sent + [s], kind) == Requested(sent, kind) + if s.ToOS? && s.msg.kind == kind then 1 else 0
  {
    assert (sent + [s])[..|sent|] == sent;
  }

  lemma AnsweredAppend(answers: seq<Msg>, m: Msg, kind: Kind, origin: Origin)
    ensures Answered(answers + [m], kind, origin)
         == Answered(answers, kind, origin) + if m.kind == kind && m.origin == origin then 1 else 0
  {
    assert (answers + [m])[..|answers|] == answers;
  }

  lemma ForwardBalances(d: Daemon, d': Daemon, m: Msg, s: Sent)
    requires Balanced(d) && d'.answers == d.answers && d'.sent == d.sent + [s] && s.msg.kind == m.kind
    requires d'.counters == if s.ToOS? then Count(d.counters, m.kind, 1) else d.counters
    ensures Balanced(d')
  {
    forall kind: Kind | !kind.Other?
      ensures BalancedFor(d', kind)
    {
      RequestedAppend(d.sent, s, kind);
    }
  }

  lemma CountDown(c: Counters, kind: Kind, other: Kind)
    requires !other.Other?
    ensures Counter(Count(c, kind, -1), other) == Counter(c, other) - if kind == other then 1 else 0
  {
  }

  lemma ResponseBalances(d: Daemon, m: Msg)
    requires Balanced(d)
    ensures Balanced(Response(d, m))
  {
    var d' := Response(d, m);
    var r := Restore(d.comm, m);
    assert d'.answers == d.answers + [r] && d'.sent == d.sent && d'.counters == Count(d.counters, r.kind, -1);
    forall kind: Kind | !kind.Other?
      ensures BalancedFor(d', kind)
    {
      AnsweredAppend(d.answers, r, kind, FromOS);
      AnsweredAppend(d.answers, r, kind, FromApps);
      CountDown(d.counters, r.kind, kind);
    }
  }

  lemma SentAppend(sent: seq<Sent>, s: Sent, pending: seq<Msg>)
    ensures PlainSent(sent + [s]) + PlainAll(pending) == PlainSent(sent) + [Plain(s.msg)] + PlainAll(pending)
  {
  }

  lemma PendingSplit(pending: seq<Msg>)
    requires pending != []
    ensures PlainAll(pending) == [Plain(pending[0])] + PlainAll(pending[1..])
  {
  }

  /** Flushing empties the queue and moves it, in order, behind what was sent. */
  lemma {:induction false} FlushKeeps(d: Daemon)
    requires Balanced(d) && AllRequests(d.pending) && (forall i :: 0 <= i < |d.sent| ==> Routed(d.sent[i]))
    ensures Ledger(Flush(d)) == Ledger(d) && Flush(d).pending == [] && Flush(d).active == d.active
    ensures Balanced(Flush(d)) && (forall i :: 0 <= i < |Flush(d).sent| ==> Routed(Flush(d).sent[i]))
    ensures Flush(d).(sent := d.sent, pending := d.pending, counters := d.counters) == d
    decreases |d.pending|
  {
    if d.pending != [] {
      var m := d.pending[0];
      var d' := SendPending(d, m).(pending := d.pending[1..]);
      var s := d'.sent[|d.sent|];
      ForwardBalances(d, d', m, s);
      SentAppend(d.sent, s, d.pending[1..]);
      PendingSplit(d.pending);
      assert Ledger(d') == Ledger(d);
      FlushKeeps(d');
    }
  }

  lemma OrdinaryKeeps(d: Daemon, m: Msg)
    requires Sound(d) && !m.isResponse && m.operation.Ordinary?
    ensures Sound(Request(d, m)) && Ledger(Request(d, m)) == Ledger(d) + [Plain(m)]
  {
    var m1 := Stamp(d, m);
    var d1 := d.(comm := Remember(d.comm, m1));
    var d' := Request(d, m);
    if d.active {
      assert d' == d1.(pending := d1.pending + [m1]);
      assert PlainAll(d.pending + [m1]) == PlainAll(d.pending) + [Plain(m)];
    } else {
      var s := d'.sent[|d.sent|];
      ForwardBalances(d, d', m, s);
      SentAppend(d.sent, s, []);
      assert Plain(s.msg) == Plain(m);
    }
  }

  lemma StepKeeps(d: Daemon, e: Event)
    requires Sound(d)
    ensures Sound(Step(d, e))
    ensures Ledger(Step(d, e)) == Ledger(d) + if IsOrdinary(e) then [Plain(e.msg)] else []
    ensures d.active && !Activates(e) ==> Step(d, e).sent == d.sent && Step(d, e).active
  {
    if IsOrdinary(e) {
      OrdinaryKeeps(d, e.msg);
    } else if Activates(e) {
      FlushKeeps(d.(active := false));
    } else if e.Arrive? && e.msg.isResponse {
      ResponseBalances(d, e.msg);
    }
  }

  /** In every run the requests forwarded, followed by those held back, are the requests
      that arrived, in their order; outside a migration nothing is held back; each counter
      is the application requests of its kind forwarded less the responses of that kind
      handled; and every request leaves at the position it came in, on the other side. */
  lemma {:induction false} RunsLoseNothing(events: seq<Event>)
    ensures var d := After(INITIAL, events);
            Ledger(d) == Ordinaries(events) && (d.active || d.pending == []) && Balanced(d)
            && forall i :: 0 <= i < |d.sent| ==> Routed(d.sent[i])
    ensures Sound(After(INITIAL, events))
  {
    if events == [] {
      assert Ledger(INITIAL) == [];
    } else {
      RunsLoseNothing(events[..|events| - 1]);
      StepKeeps(After(INITIAL, events[..|events| - 1]), events[|events| - 1]);
    }
  }

  // -------------------------------------- orders to stop

  predicate IsStop(e: Event) {
    e.Arrive? && !e.msg.isResponse && e.msg.operation.StopAndDownContainer?
  }

  /** The orders to stop that found the daemon unblocked and prepared, as answers. */
  function PreparedStops(d: Daemon, events: seq<Event>): seq<Msg> {
    if events == [] then []
    else
      var n := |events| - 1;
      var now := After(d, events[..n]);
      PreparedStops(d, events[..n])
        + if IsStop(events[n]) && !now.active && Prepared(now.counters)
          then [events[n].msg.(isResponse := true)] else []
  }

  lemma {:induction false} FlushAnswersNoStop(d: Daemon)
    ensures Flush(d).notices == d.notices
    decreases |d.pending|
  {
    if d.pending != [] { FlushAnswersNoStop(SendPending(d, d.pending[0]).(pending := d.pending[1..])); }
  }

  lemma StepAnswersStop(d: Daemon, e: Event)
    ensures Step(d, e).notices
         == d.notices + if IsStop(e) && !d.active && Prepared(d.counters) then [e.msg.(isResponse := true)] else []
  {
    FlushAnswersNoStop(d.(active := false));
  }

  /** In every run, through any number of migrations, the orders to stop that are answered
      are, in order, those that found the daemon unblocked and prepared as they arrived.
      An order that found work outstanding is never answered, even when that work is done
      and whatever comes later. */
  lemma {:induction false} StopsAnsweredExactly(d: Daemon, events: seq<Event>)
    ensures After(d, events).notices == d.notices + PreparedStops(d, events)
  {
    if events != [] {
      var n := |events| - 1;
      StopsAnsweredExactly(d, events[..n]);
      StepAnswersStop(After(d, events[..n]), events[n]);
    }
  }

  /** The daemon is unblocked and has nothing outstanding as event i arrives. */
  predicate ReadyAt(d: Daemon, events: seq<Event>, i: nat)
    requires i <= |events|
  {
    !After(d, events[..i]).active && Prepared(After(d, events[..i]).counters)
  }

  predicate Mentions(ms: seq<Msg>, id: int) {
    exists k :: 0 <= k < |ms| && ms[k].id == id
  }

  lemma MentionsSnoc(ms: seq<Msg>, m: Msg, id: int)
    ensures Mentions(ms + [m], id) <==> Mentions(ms, id) || m.id == id
  {
    assert (ms + [m])[|ms|] == m;
    assert forall k :: 0 <= k < |ms| ==> (ms + [m])[k] == ms[k];
  }

  /** Event i is an order to stop with this identifier that is answered as it arrives. */
  predicate AnsweredAt(d: Daemon, events: seq<Event>, i: nat, id: int) {
    i < |events| && IsStop(events[i]) && events[i].msg.id == id && ReadyAt(d, events, i)
  }

  lemma AnsweredBefore(d: Daemon, events: seq<Event>, n: nat, i: nat, id: int)
    requires i < n <= |events|
    ensures AnsweredAt(d, events[..n], i, id) <==> AnsweredAt(d, events, i, id)
  {
    assert events[..n][..i] == events[..i];
  }

  lemma {:induction false} AnsweredAsItArrived(d: Daemon, events: seq<Event>, id: int)
    ensures Mentions(PreparedStops(d, events), id) <==> exists i :: AnsweredAt(d, events, i, id)
  {
    if events != [] {
      var n := |events| - 1;
      AnsweredAsItArrived(d, events[..n], id);
      forall i: nat | i < n ensures AnsweredAt(d, events[..n], i, id) <==> AnsweredAt(d, events, i, id) {
        AnsweredBefore(d, events, n, i, id);
      }
      if IsStop(events[n]) && ReadyAt(d, events, n) {
        var m := events[n].msg.(isResponse := true);
        MentionsSnoc(PreparedStops(d, events[..n]), m, id);
        assert PreparedStops(d, events) == PreparedStops(d, events[..n]) + [m];
        assert AnsweredAt(d, events, n, id) <==> m.id == id;
      } else {
        assert PreparedStops(d, events) == PreparedStops(d, events[..n]);
        assert !AnsweredAt(d, events, n, id);
      }
      assert forall i: nat :: i > n ==> !AnsweredAt(d, events, i, id);
      assert forall i: nat :: i >= n ==> !AnsweredAt(d, events[..n], i, id);
    }
  }

  /** An order to stop is ever answered exactly when it finds the daemon unblocked and
      prepared. */
  lemma StopIsAnsweredExactly(events: seq<Event>, i: nat)
    requires i < |events| && IsStop(events[i])
    requires forall j :: 0 <= j < |events| && j != i && IsStop(events[j]) ==> events[j].msg.id != events[i].msg.id
    ensures Mentions(After(INITIAL, events).notices, events[i].msg.id) <==> ReadyAt(INITIAL, events, i)
  {
    StopsAnsweredExactly(INITIAL, events);
    AnsweredAsItArrived(INITIAL, events, events[i].msg.id);
    assert AnsweredAt(INITIAL, events, i, events[i].msg.id) <==> ReadyAt(INITIAL, events, i);
    assert INITIAL.notices + PreparedStops(INITIAL, events) == PreparedStops(INITIAL, events);
  }

  /** From a daemon that is blocked, nothing is forwarded until it is activated again. */
  lemma {:induction false} BlockedMeansSilent(before: seq<Event>, events: seq<Event>)
    requires After(INITIAL, before).active
    requires forall i :: 0 <= i < |events| ==> !Activates(events[i])
    ensures var d := After(After(INITIAL, before), events);
            d.active && Sound(d) && d.sent == After(INITIAL, before).sent && d.notices == After(INITIAL, before).notices
  {
    if events == [] {
      RunsLoseNothing(before);
    } else {
      BlockedMeansSilent(before, events[..|events| - 1]);
      StepKeeps(After(After(INITIAL, before), events[..|events| - 1]), events[|events| - 1]);
    }
  }

  /** The daemon takes itself to be ready for migration exactly when, for each kind, the
      application requests without a response are as many as the responses applications
      gave to the operating system. */
  lemma PreparedExactly(events: seq<Event>)
    ensures var d := After(INITIAL, events);
            Prepared(d.counters) <==>
              forall kind: Kind :: !kind.Other? ==>
                Requested(d.sent, kind) - Answered(d.answers, kind, FromOS) == Answered(d.answers, kind, FromApps)
  {
    RunsLoseNothing(events);
    var d := After(INITIAL, events);
    if forall kind: Kind :: !kind.Other? ==>
         Requested(d.sent, kind) - Answered(d.answers, kind, FromOS) == Answered(d.answers, kind, FromApps) {
      forall kind: Kind | !kind.Other? ensures Counter(d.counters, kind) == 0 {
        assert BalancedFor(d, kind);
      }
      assert Counter(d.counters, Cpu) == 0 && Counter(d.counters, Io) == 0;
      assert Counter(d.counters, Mem) == 0 && Counter(d.counters, Net) == 0;
    }
    if Prepared(d.counters) {
      forall kind: Kind | !kind.Other?
        ensures Requested(d.sent, kind) - Answered(d.answers, kind, FromOS) == Answered(d.answers, kind, FromApps)
      {
        assert Counter(d.counters, kind) == 0;
      }
    }
  }

  lemma CpuRequest(d: Daemon, m: Msg)
    requires IsOrdinary(Arrive(m)) && m.kind.Cpu? && !d.active
    ensures Step(d, Arrive(m)) == d.(sent := d.sent + [Sending(Stamp(d, m))],
                                     counters := if m.origin.FromOS? then d.counters
                                                 else d.counters.(cpu := d.counters.cpu + 1))
  {
  }

  lemma CpuResponse(d: Daemon, m: Msg)
    requires m.isResponse && m.kind.Cpu?
    ensures Step(d, Arrive(m)) == d.(answers := d.answers + [m], counters := d.counters.(cpu := d.counters.cpu - 1))
  {
  }

  /** An application's request goes out, one from the operating system is answered, and a
      daemon that was prepared takes itself to be so still. */
  lemma PreparedWithWorkOutstanding(d: Daemon, request: Msg, other: Msg, answer: Msg)
    returns (d1: Daemon, d2: Daemon, d3: Daemon)
    requires !d.active && Prepared(d.counters)
    requires IsOrdinary(Arrive(request)) && request.kind.Cpu? && request.origin.FromApps?
    requires IsOrdinary(Arrive(other)) && other.kind.Cpu? && other.origin.FromOS?
    requires answer == other.(isResponse := true, origin := FromApps)
    ensures d1 == Step(d, Arrive(request)) && d2 == Step(d1, Arrive(other)) && d3 == Step(d2, Arrive(answer))
    ensures Prepared(d3.counters) && Requested(d3.sent, Cpu) == Requested(d.sent, Cpu) + 1
    ensures Answered(d3.answers, Cpu, FromOS) == Answered(d.answers, Cpu, FromOS)
  {
    d1 := Step(d, Arrive(request));
    d2 := Step(d1, Arrive(other));
    d3 := Step(d2, Arrive(answer));
    CpuRequest(d, request);
    CpuRequest(d1, other);
    CpuResponse(d2, answer);
    RequestedAppend(d.sent, Sending(Stamp(d, request)), Cpu);
    RequestedAppend(d1.sent, Sending(Stamp(d1, other)), Cpu);
    AnsweredAppend(d.answers, answer, Cpu, FromOS);
  }

  // -------------------------------------- what a flush sends

  function Sending(m: Msg): Sent {
    if m.origin.FromOS? then ToApps(m.gate, m) else ToOS(m.gate, Rewrite(m))
  }

  function Releasing(m: Msg): Sent {
    if m.origin.FromOS? then ToApps(m.gate, m) else ToOS(m.gate, m)
  }

  function SendAll(ms: seq<Msg>): seq<Sent> {
    seq(|ms|, i requires 0 <= i < |ms| => Sending(ms[i]))
  }

  function ReleaseAll(ms: seq<Msg>): seq<Sent> {
    seq(|ms|, i requires 0 <= i < |ms| => Releasing(ms[i]))
  }

  function CountOne(c: Counters, m: Msg): Counters {
    if m.origin.FromApps? then Count(c, m.kind, 1) else c
  }

  function CountAll(c: Counters, ms: seq<Msg>): Counters
    decreases |ms|
  {
    if ms == [] then c else CountAll(CountOne(c, ms[0]), ms[1..])
  }

  lemma SendPendingSends(d: Daemon, m: Msg)
    requires !m.isResponse
    ensures SendPending(d, m) == d.(counters := CountOne(d.counters, m), sent := d.sent + [Releasing(m)])
  {
  }

  lemma ReleaseFront(sent: seq<Sent>, ms: seq<Msg>)
    requires ms != []
    ensures sent + ReleaseAll(ms) == sent + [Releasing(ms[0])] + ReleaseAll(ms[1..])
  {
  }

  lemma {:induction false} FlushSends(d: Daemon)
    requires AllRequests(d.pending)
    ensures Flush(d) == d.(pending := [], counters := CountAll(d.counters, d.pending),
                           sent := d.sent + ReleaseAll(d.pending))
    decreases |d.pending|
  {
    if d.pending == [] {
      assert d.sent + ReleaseAll(d.pending) == d.sent;
    } else {
      SendPendingSends(d, d.pending[0]);
      ReleaseFront(d.sent, d.pending);
      FlushSends(SendPending(d, d.pending[0]).(pending := d.pending[1..]));
    }
  }
}
