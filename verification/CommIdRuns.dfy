/** The communication identifiers of requests that cross a Docker daemon, there and back. */
module CommIdRuns {
  import opened CommIds
  import opened Migration
  import opened MigrationRuns

  /** An arrival of this message. */
  predicate About(e: Event, id: int) {
    e.Arrive? && e.msg.id == id
  }

  /** No event but the response itself concerns this message. */
  predicate Foreign(events: seq<Event>, id: int) {
    forall i :: 0 <= i < |events| ==> !About(events[i], id)
  }

  lemma RememberLeavesOpen(comm: seq<Vm>, m: Msg, uid: int, pid: int, id: int)
    requires Tidy(comm)
    ensures Tidy(Remember(comm, m))
    ensures m.id != id ==> Open(Remember(comm, m), uid, pid, id) == Open(comm, uid, pid, id)
  {
    InsertTidies(comm, m.uid, m.pid, Entry(m.commId, m.id), uid, pid);
    InsertAppends(comm, m.uid, m.pid, Entry(m.commId, m.id), uid, pid, id);
  }

  lemma ResponseLeavesOpen(d: Daemon, m: Msg, uid: int, pid: int, id: int)
    requires Tidy(d.comm)
    ensures Tidy(Response(d, m).comm)
    ensures m.id != id ==> Open(Response(d, m).comm, uid, pid, id) == Open(d.comm, uid, pid, id)
  {
    TakePops(d.comm, m.uid, m.pid, m.id, uid, pid, id);
    TakeTidies(d.comm, m.uid, m.pid, m.id, uid, pid);
  }

  lemma StepLeavesOpen(d: Daemon, e: Event, uid: int, pid: int, id: int)
    requires Tidy(d.comm)
    ensures Tidy(Step(d, e).comm)
    ensures !About(e, id) ==> Open(Step(d, e).comm, uid, pid, id) == Open(d.comm, uid, pid, id)
  {
    if e.Arrive? && e.msg.isResponse {
      ResponseLeavesOpen(d, e.msg, uid, pid, id);
    } else if IsOrdinary(e) {
      RememberLeavesOpen(d.comm, Stamp(d, e.msg), uid, pid, id);
      assert Step(d, e).comm == Remember(d.comm, Stamp(d, e.msg));
    } else {
      FlushLeavesComm(d.(active := false));
      assert Step(d, e).comm == d.comm;
    }
  }

  lemma {:induction false} FlushLeavesComm(d: Daemon)
    ensures Flush(d).comm == d.comm
    decreases |d.pending|
  {
    if d.pending != [] { FlushLeavesComm(SendPending(d, d.pending[0]).(pending := d.pending[1..])); }
  }

  lemma {:induction false} RunLeavesOpen(d: Daemon, events: seq<Event>, uid: int, pid: int, id: int)
    requires Tidy(d.comm) && Foreign(events, id)
    ensures Tidy(After(d, events).comm)
    ensures Open(After(d, events).comm, uid, pid, id) == Open(d.comm, uid, pid, id)
  {
    if events != [] {
      RunLeavesOpen(d, events[..|events| - 1], uid, pid, id);
      StepLeavesOpen(After(d, events[..|events| - 1]), events[|events| - 1], uid, pid, id);
    }
  }

  lemma {:induction false} RunsStayTidy(events: seq<Event>)
    ensures Tidy(After(INITIAL, events).comm)
  {
    if events != [] {
      RunsStayTidy(events[..|events| - 1]);
      StepLeavesOpen(After(INITIAL, events[..|events| - 1]), events[|events| - 1], 0, 0, 0);
    }
  }

  // -------------------------------------- the way out

  /** How an application's request leaves: rewritten when it is forwarded at once, and only
      stamped when it is held back. */
  function Outgoing(d: Daemon, m: Msg): Msg {
    if d.active then Stamp(d, m) else Rewrite(Stamp(d, m))
  }

  /** It has left by the gate of its container, or waits for that. */
  predicate OutOrHeld(d: Daemon, m: Msg) {
    ToOS(m.gate, m) in d.sent || (d.active && m in d.pending)
  }

  lemma RequestIsTaken(d: Daemon, m: Msg)
    requires Tidy(d.comm) && IsOrdinary(Arrive(m)) && m.origin.FromApps?
    requires Open(d.comm, d.uid, d.pid, m.id) == []
    ensures var d' := Step(d, Arrive(m));
            && Tidy(d'.comm) && OutOrHeld(d', Outgoing(d, m)) && (!d.active ==> ToOS(m.gate, Outgoing(d, m)) in d'.sent)
            && Open(d'.comm, d.uid, d.pid, m.id) == if m.kind.Net? && m.commId != -1 then [m.commId] else []
  {
    InsertTidies(d.comm, d.uid, d.pid, Entry(m.commId, m.id), 0, 0);
    InsertAppends(d.comm, d.uid, d.pid, Entry(m.commId, m.id), d.uid, d.pid, m.id);
    var d', out := Step(d, Arrive(m)), Outgoing(d, m);
    if d.active {
      assert d'.pending[|d.pending|] == out;
    } else {
      assert d'.sent[|d.sent|] == ToOS(m.gate, out);
    }
  }

  lemma FlushTakesOut(d: Daemon, m: Msg)
    requires AllRequests(d.pending) && m.origin.FromApps?
    ensures m in d.pending || ToOS(m.gate, m) in d.sent ==> ToOS(m.gate, m) in Flush(d).sent
  {
    FlushSends(d);
    var sent := d.sent + ReleaseAll(d.pending);
    if m in d.pending {
      var i :| 0 <= i < |d.pending| && d.pending[i] == m;
      assert sent[|d.sent| + i] == ToOS(m.gate, m);
    } else if ToOS(m.gate, m) in d.sent {
      var i :| 0 <= i < |d.sent| && d.sent[i] == ToOS(m.gate, m);
      assert sent[i] == ToOS(m.gate, m);
    }
  }

  lemma StepKeepsOut(d: Daemon, e: Event, m: Msg)
    requires Sound(d) && OutOrHeld(d, m) && m.origin.FromApps?
    ensures OutOrHeld(Step(d, e), m)
  {
    if Activates(e) {
      FlushTakesOut(d.(active := false), m);
    }
  }

  lemma {:induction false} RunKeepsOut(d: Daemon, events: seq<Event>, m: Msg)
    requires Sound(d) && OutOrHeld(d, m) && m.origin.FromApps?
    ensures Sound(After(d, events)) && OutOrHeld(After(d, events), m)
  {
    if events != [] {
      var n := |events| - 1;
      RunKeepsOut(d, events[..n], m);
      StepKeeps(After(d, events[..n]), events[n]);
      StepKeepsOut(After(d, events[..n]), events[n], m);
    }
  }

  // -------------------------------------- and back

  lemma ComesBack(d: Daemon, r: Msg)
    requires Tidy(d.comm) && r.isResponse
    ensures var d' := Step(d, Arrive(r));
            var open := Open(d.comm, r.uid, r.pid, r.id);
            && d'.answers == d.answers + [if r.kind.Net? && open != [] then r.(commId := open[0]) else r]
            && (r.kind.Net? && open != [] ==> Open(d'.comm, r.uid, r.pid, r.id) == open[1..])
            && (!r.kind.Net? || open == [] ==> Open(d'.comm, r.uid, r.pid, r.id) == open)
  {
    TakePops(d.comm, r.uid, r.pid, r.id, r.uid, r.pid, r.id);
  }

  /** What the application gets back with the response to what went out. */
  lemma EchoComesBack(d: Daemon, out: Msg, original: int)
    requires Tidy(d.comm)
    requires Open(d.comm, out.uid, out.pid, out.id) == if out.kind.Net? && original != -1 then [original] else []
    ensures var r := out.(isResponse := true, origin := FromOS);
            var d' := Step(d, Arrive(r));
            var commId := if out.kind.Net? && original != -1 then original else out.commId;
            d'.answers == d.answers + [r.(commId := commId)] && Open(d'.comm, out.uid, out.pid, out.id) == []
  {
    ComesBack(d, out.(isResponse := true, origin := FromOS));
  }

  /** An application's request that is forwarded at once goes out with the position of its
      container in place of its communication identifier; one that is held back keeps it.
      When the response comes back, after any other traffic and any migrations, it carries
      the identifier the application had written exactly if the request was held back, or
      is a network message with an identifier, or had that position as identifier anyway. */
  lemma CommIdComesBackExactly(before: seq<Event>, m: Msg, between: seq<Event>)
    requires IsOrdinary(Arrive(m)) && m.origin.FromApps? && Foreign(between, m.id)
    requires var d := After(INITIAL, before); Open(d.comm, d.uid, d.pid, m.id) == []
    ensures var d := After(INITIAL, before);
            var out, now := Outgoing(d, m), After(Step(d, Arrive(m)), between);
            && out.commId == (if d.active then m.commId else m.gate)
            && OutOrHeld(now, out) && (!now.active ==> ToOS(m.gate, out) in now.sent)
            && var d' := Step(now, Arrive(out.(isResponse := true, origin := FromOS)));
            && d'.answers != []
            && var back := d'.answers[|d'.answers| - 1];
            && back == out.(isResponse := true, origin := FromOS, commId := back.commId)
            && (back.commId == m.commId <==> d.active || (m.kind.Net? && m.commId != -1) || m.commId == m.gate)
            && Open(d'.comm, out.uid, out.pid, m.id) == []
  {
    RunsStayTidy(before);
    RunsLoseNothing(before);
    var d := After(INITIAL, before);
    var d1, out := Step(d, Arrive(m)), Outgoing(d, m);
    RequestIsTaken(d, m);
    StepKeeps(d, Arrive(m));
    RunKeepsOut(d1, between, out);
    RunLeavesOpen(d1, between, d.uid, d.pid, m.id);
    EchoComesBack(After(d1, between), out, m.commId);
  }
}
