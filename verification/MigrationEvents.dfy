/** What the events of a run decide by themselves: when the daemon is blocked, whose identity
    its messages carry, what it has answered. */
module MigrationEvents {
  import opened Migration
  import opened MigrationRuns

  // -------------------------------------- blocked

  predicate Blocks(e: Event) {
    e.Block? || IsStop(e)
  }

  /** Event i blocks the daemon, and none since then activates it. */
  predicate BlockedSince(events: seq<Event>, i: nat) {
    i < |events| && Blocks(events[i]) && forall j :: i < j < |events| ==> !Activates(events[j])
  }

  lemma StepBlocks(d: Daemon, e: Event)
    requires AllRequests(d.pending)
    ensures Step(d, e).active == if Blocks(e) then true else if Activates(e) then false else d.active
    ensures Blocks(e) ==> Step(d, e).sent == d.sent && Step(d, e).pending == d.pending
  {
    if Activates(e) { FlushSends(d.(active := false)); }
  }

  /** The daemon is blocked exactly when an order to stop, or a block, has come since it was last
      activated; whatever it had outstanding. */
  lemma {:induction false} BlockedExactly(events: seq<Event>)
    ensures After(INITIAL, events).active <==> exists i :: BlockedSince(events, i)
  {
    if events != [] {
      var n := |events| - 1;
      var before, e := events[..n], events[n];
      BlockedExactly(before);
      RunsLoseNothing(before);
      StepBlocks(After(INITIAL, before), e);
      assert Blocks(e) ==> BlockedSince(events, n);
      forall i: nat | i < n ensures BlockedSince(events, i) <==> BlockedSince(before, i) && !Activates(e) {
        BlockedStill(before, e, i);
        assert before + [e] == events;
      }
      assert forall i: nat :: i >= n ==> !BlockedSince(before, i);
      assert forall i: nat :: i > n ==> !BlockedSince(events, i);
    }
  }

  lemma BlockedStill(before: seq<Event>, e: Event, i: nat)
    requires i < |before|
    ensures BlockedSince(before + [e], i) <==> BlockedSince(before, i) && !Activates(e)
  {
    var all := before + [e];
    assert all[i] == before[i] && all[|before|] == e;
    assert forall j :: i < j < |before| ==> all[j] == before[j];
  }

  /** From an order to stop, or a block, to the next activation the daemon forwards nothing. */
  lemma {:induction false} StoppedSendsNothing(before: seq<Event>, stop: Event, between: seq<Event>)
    requires Blocks(stop) && forall i :: 0 <= i < |between| ==> !Activates(between[i])
    ensures After(After(INITIAL, before + [stop]), between).active
    ensures After(After(INITIAL, before + [stop]), between).sent == After(INITIAL, before).sent
  {
    var d := After(INITIAL, before);
    RunsLoseNothing(before);
    StepBlocks(d, stop);
    assert (before + [stop])[..|before|] == before;
    BlockedMeansSilent(before + [stop], between);
  }

  // -------------------------------------- identity

  datatype Ids = Ids(uid: int, pid: int)

  /** The identity set last. */
  function LastIds(events: seq<Event>): Ids {
    if events == [] then Ids(-1, -1)
    else
      var e := events[|events| - 1];
      if e.SetId? then Ids(e.uid, e.pid) else LastIds(events[..|events| - 1])
  }

  lemma StepKeepsIds(d: Daemon, e: Event)
    requires AllRequests(d.pending)
    ensures Step(d, e).uid == (if e.SetId? then e.uid else d.uid)
    ensures Step(d, e).pid == (if e.SetId? then e.pid else d.pid)
  {
    if Activates(e) { FlushSends(d.(active := false)); }
  }

  lemma {:induction false} IdsAreLast(events: seq<Event>)
    ensures After(INITIAL, events).uid == LastIds(events).uid && After(INITIAL, events).pid == LastIds(events).pid
  {
    if events != [] {
      var n := |events| - 1;
      IdsAreLast(events[..n]);
      RunsLoseNothing(events[..n]);
      StepKeepsIds(After(INITIAL, events[..n]), events[n]);
    }
  }

  function IdsOfSent(sent: seq<Sent>): seq<Ids> {
    seq(|sent|, i requires 0 <= i < |sent| => Ids(sent[i].msg.uid, sent[i].msg.pid))
  }

  function IdsOfAll(ms: seq<Msg>): seq<Ids> {
    seq(|ms|, i requires 0 <= i < |ms| => Ids(ms[i].uid, ms[i].pid))
  }

  /** Whose messages the daemon has forwarded and holds back, in their order. */
  function IdsIn(d: Daemon): seq<Ids> {
    IdsOfSent(d.sent) + IdsOfAll(d.pending)
  }

  function IdsAtArrival(events: seq<Event>): seq<Ids> {
    if events == [] then []
    else
      var n := |events| - 1;
      IdsAtArrival(events[..n]) + if IsOrdinary(events[n]) then [LastIds(events[..n])] else []
  }

  lemma ReleasedIds(sent: seq<Sent>, ms: seq<Msg>)
    ensures IdsOfSent(sent + ReleaseAll(ms)) == IdsOfSent(sent) + IdsOfAll(ms)
  {
  }

  lemma OneMoreSent(sent: seq<Sent>, s: Sent)
    ensures IdsOfSent(sent + [s]) == IdsOfSent(sent) + [Ids(s.msg.uid, s.msg.pid)]
  {
  }

  lemma OneMoreHeld(ms: seq<Msg>, m: Msg)
    ensures IdsOfAll(ms + [m]) == IdsOfAll(ms) + [Ids(m.uid, m.pid)]
  {
  }

  lemma OrdinaryCarriesIds(d: Daemon, m: Msg)
    requires IsOrdinary(Arrive(m)) && (d.active || d.pending == [])
    ensures IdsIn(Step(d, Arrive(m))) == IdsIn(d) + [Ids(d.uid, d.pid)]
  {
    var s := Stamp(d, m);
    if d.active {
      OneMoreHeld(d.pending, s);
      assert Step(d, Arrive(m)).pending == d.pending + [s];
    } else {
      OneMoreSent(d.sent, Sending(s));
      assert Step(d, Arrive(m)).sent == d.sent + [Sending(s)];
      assert IdsOfAll([]) == [];
    }
  }

  lemma OthersKeepIds(d: Daemon, e: Event)
    requires !IsOrdinary(e) && AllRequests(d.pending)
    ensures IdsIn(Step(d, e)) == IdsIn(d)
  {
    if Activates(e) {
      FlushSends(d.(active := false));
      ReleasedIds(d.sent, d.pending);
      assert IdsOfAll([]) == [];
    }
  }

  /** Every request carries the user and the machine that were set last as it arrived, also if it
      is held back and others are set before it leaves. */
  lemma {:induction false} RequestsCarryIds(events: seq<Event>)
    ensures IdsIn(After(INITIAL, events)) == IdsAtArrival(events)
  {
    if events == [] {
      assert IdsIn(INITIAL) == [];
    } else {
      var n := |events| - 1;
      var d := After(INITIAL, events[..n]);
      RequestsCarryIds(events[..n]);
      RunsLoseNothing(events[..n]);
      IdsAreLast(events[..n]);
      if IsOrdinary(events[n]) {
        OrdinaryCarriesIds(d, events[n].msg);
      } else {
        OthersKeepIds(d, events[n]);
      }
    }
  }

  /** What an unblocked daemon makes of a request: one of the operating system goes on as it is,
      one of an application with its position and, on the network, the address it had. */
  lemma DirectRequest(before: seq<Event>, m: Msg)
    requires IsOrdinary(Arrive(m)) && !After(INITIAL, before).active
    ensures var d, ids := After(INITIAL, before), LastIds(before);
            var stamped := m.(uid := ids.uid, pid := ids.pid);
            var user := if m.virtual.user == -1 then ids.uid else m.virtual.user;
            Step(d, Arrive(m)).sent == d.sent + [
              if m.origin.FromOS? then ToApps(m.gate, stamped)
              else if m.kind.Net? then ToOS(m.gate, stamped.(commId := m.gate, virtual := Virtual(user, m.address)))
              else ToOS(m.gate, stamped.(commId := m.gate))]
  {
    IdsAreLast(before);
  }

  // -------------------------------------- responses

  function Responses(events: seq<Event>): seq<Msg> {
    if events == [] then []
    else
      var e := events[|events| - 1];
      Responses(events[..|events| - 1]) + if e.Arrive? && e.msg.isResponse then [e.msg] else []
  }

  /** Every response goes on at once and in order, blocked or not, as it came but for its
      identifier. */
  lemma {:induction false} ResponsesGoOn(events: seq<Event>, i: nat)
    requires i < |After(INITIAL, events).answers|
    ensures |Responses(events)| == |After(INITIAL, events).answers|
    ensures var (a, r) := (After(INITIAL, events).answers[i], Responses(events)[i]);
            a == r.(commId := a.commId)
  {
    var n := |events| - 1;
    var d := After(INITIAL, events[..n]);
    RunsLoseNothing(events[..n]);
    if Activates(events[n]) { FlushSends(d.(active := false)); }
    AllAnswered(events[..n]);
    if i < |d.answers| {
      ResponsesGoOn(events[..n], i);
    }
  }

  lemma {:induction false} AllAnswered(events: seq<Event>)
    ensures |Responses(events)| == |After(INITIAL, events).answers|
  {
    if events != [] {
      var n := |events| - 1;
      AllAnswered(events[..n]);
      RunsLoseNothing(events[..n]);
      if Activates(events[n]) { FlushSends(After(INITIAL, events[..n]).(active := false)); }
    }
  }
}
