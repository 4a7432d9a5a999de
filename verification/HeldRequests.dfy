/** Requests that a Docker daemon holds back while containers come and go: by whose gate
    they leave in the end. */
module HeldRequests {
  import opened Wrappers
  import GateManager
  import opened ContainerGates
  import opened Migration
  import opened MigrationRuns

  /** A request forwarded: the container it came from or was for, when it arrived; the
      position; and the container connected there when it left, if any. */
  datatype Exit = Exit(owner: nat, gate: nat, via: Option<nat>)

  /** The daemon with its gates. `owners` are the containers of the requests held back,
      `exits` what has become of those forwarded. */
  datatype Joint = Joint(daemon: Daemon, wiring: Wiring, owners: seq<nat>, exits: seq<Exit>)

  datatype Event = Wire(op: Op) | Traffic(e: Migration.Event)

  const START: Joint := Joint(INITIAL, UNWIRED, [], [])

  /** The peers of the gates a message comes in by, and of those it leaves by. */
  function InPeers(w: Wiring, origin: Origin): map<nat, nat> {
    match origin case FromOS => w.fromOSPeer case FromApps => w.fromAppsPeer
  }

  function OutPeers(w: Wiring, origin: Origin): map<nat, nat> {
    match origin case FromOS => w.toAppsPeer case FromApps => w.toOSPeer
  }

  function ExitOf(w: Wiring, owner: nat, m: Msg): Exit {
    var out := OutPeers(w, m.origin);
    Exit(owner, m.gate, if m.gate in out then Some(out[m.gate]) else None)
  }

  /** A request comes in by a gate that is connected. */
  predicate Possible(j: Joint, ev: Event) {
    ev.Traffic? && IsOrdinary(ev.e) ==> ev.e.msg.gate in InPeers(j.wiring, ev.e.msg.origin)
  }

  function Released(j: Joint): seq<Exit>
    requires |j.owners| == |j.daemon.pending|
  {
    seq(|j.owners|, i requires 0 <= i < |j.owners| => ExitOf(j.wiring, j.owners[i], j.daemon.pending[i]))
  }

  function Next(j: Joint, ev: Event): Joint
    requires Possible(j, ev) && |j.owners| == |j.daemon.pending|
  {
    match ev
    case Wire(op) =>
      var w := ContainerGates.Step(j.wiring, op);
      if w.None? then j else j.(wiring := w.value)
    case Traffic(e) =>
      var d := Migration.Step(j.daemon, e);
      if IsOrdinary(e) then
        var owner := InPeers(j.wiring, e.msg.origin)[e.msg.gate];
        if j.daemon.active then j.(daemon := d, owners := j.owners + [owner])
        else j.(daemon := d, exits := j.exits + [ExitOf(j.wiring, owner, e.msg)])
      else if Activates(e) then j.(daemon := d, owners := [], exits := j.exits + Released(j))
      else j.(daemon := d)
  }

  // ---------------------------------------------------------------- what every run keeps

  /** The log of exits is that of the requests sent, position by position. */
  ghost predicate Logged(j: Joint) {
    && Sound(j.daemon) && Lockstep(j.wiring) && |j.owners| == |j.daemon.pending|
    && |j.exits| == |j.daemon.sent|
    && forall i :: 0 <= i < |j.exits| ==> j.exits[i].gate == j.daemon.sent[i].gate
  }

  /** Each request held back has the position of its container. */
  predicate Placed(j: Joint)
    requires |j.owners| == |j.daemon.pending|
  {
    forall i :: 0 <= i < |j.owners| ==>
      j.owners[i] in j.wiring.previous && j.wiring.previous[j.owners[i]] == j.daemon.pending[i].gate
  }

  /** Every request forwarded left by the gate of its own container. */
  predicate AllRight(exits: seq<Exit>) {
    forall i :: 0 <= i < |exits| ==> exits[i].via == Some(exits[i].owner)
  }

  lemma FlushesPending(d: Daemon)
    requires Sound(d)
    ensures Activate(d).pending == [] && Activate(d).sent == d.sent + ReleaseAll(d.pending)
  {
    FlushSends(d.(active := false));
  }

  lemma QuietTrafficKeepsPending(d: Daemon, e: Migration.Event)
    requires !IsOrdinary(e) && !Activates(e)
    ensures Migration.Step(d, e).pending == d.pending && Migration.Step(d, e).sent == d.sent
  {
  }

  lemma OrdinaryMoves(d: Daemon, m: Msg)
    requires IsOrdinary(Arrive(m))
    ensures var d' := Migration.Step(d, Arrive(m));
            if d.active then d'.pending == d.pending + [Stamp(d, m)] && d'.sent == d.sent
            else d'.pending == d.pending && d'.sent == d.sent + [Sending(Stamp(d, m))]
  {
  }

  lemma WiringKeeps(w: Wiring, op: Op)
    requires Lockstep(w)
    ensures ContainerGates.Step(w, op).Some? && Lockstep(ContainerGates.Step(w, op).value)
  {
    match op
    case LinkOp(c) => if c !in w.previous { LinkKeeps(w, c); }
    case UnlinkOp(c) => if c in w.previous { UnlinkKeeps(w, c); }
  }

  lemma NextKeepsLog(j: Joint, ev: Event)
    requires Logged(j) && Possible(j, ev)
    ensures Logged(Next(j, ev))
  {
    match ev
    case Wire(op) => WiringKeeps(j.wiring, op);
    case Traffic(e) =>
      StepKeeps(j.daemon, e);
      if IsOrdinary(e) {
        OrdinaryMoves(j.daemon, e.msg);
      } else if Activates(e) {
        FlushesPending(j.daemon);
      } else {
        QuietTrafficKeepsPending(j.daemon, e);
      }
  }

  /** Connecting any container, or disconnecting one that owns no request held back. */
  predicate Careful(j: Joint, ev: Event) {
    ev.Wire? && ev.op.UnlinkOp? ==> ev.op.container !in j.owners
  }

  lemma WiringKeepsPlaces(j: Joint, op: Op)
    requires Logged(j) && Placed(j) && Careful(j, Wire(op))
    ensures Placed(Next(j, Wire(op)))
  {
    WiringKeeps(j.wiring, op);
    var w, w' := j.wiring, ContainerGates.Step(j.wiring, op).value;
    forall i | 0 <= i < |j.owners|
      ensures j.owners[i] in w'.previous && w'.previous[j.owners[i]] == w.previous[j.owners[i]]
    {
      assert j.owners[i] in j.owners;
    }
  }

  lemma ComesFromOwner(w: Wiring, m: Msg)
    requires Lockstep(w) && m.gate in InPeers(w, m.origin)
    ensures var owner := InPeers(w, m.origin)[m.gate];
            owner in w.previous && w.previous[owner] == m.gate && ExitOf(w, owner, m).via == Some(owner)
  {
  }

  /** A request leaves by the gate of a container exactly when that one is at its position. */
  lemma LeavesByExactly(w: Wiring, owner: nat, m: Msg)
    requires Lockstep(w)
    ensures ExitOf(w, owner, m).via == Some(owner) <==> owner in w.previous && w.previous[owner] == m.gate
  {
  }

  /** What is held back leaves by the right gates exactly when each request has the position
      that its container has now. */
  lemma ReleasedAreRightExactly(j: Joint)
    requires Logged(j)
    ensures AllRight(Released(j)) <==> Placed(j)
  {
    forall i | 0 <= i < |j.owners|
      ensures Released(j)[i].via == Some(Released(j)[i].owner)
              <==> j.owners[i] in j.wiring.previous && j.wiring.previous[j.owners[i]] == j.daemon.pending[i].gate
    {
      LeavesByExactly(j.wiring, j.owners[i], j.daemon.pending[i]);
    }
  }

  lemma CarefulKeeps(j: Joint, ev: Event)
    requires Logged(j) && Placed(j) && AllRight(j.exits) && Possible(j, ev) && Careful(j, ev)
    ensures |Next(j, ev).owners| == |Next(j, ev).daemon.pending| && Placed(Next(j, ev)) && AllRight(Next(j, ev).exits)
  {
    NextKeepsLog(j, ev);
    match ev
    case Wire(op) => WiringKeepsPlaces(j, op);
    case Traffic(e) =>
      if IsOrdinary(e) {
        ComesFromOwner(j.wiring, e.msg);
        OrdinaryMoves(j.daemon, e.msg);
      } else if Activates(e) {
        ReleasedAreRightExactly(j);
      } else {
        QuietTrafficKeepsPending(j.daemon, e);
      }
  }

  /** A run: requests come in by connected gates. */
  ghost predicate IsRun(states: seq<Joint>, events: seq<Event>) {
    && |states| == |events| + 1 && states[0] == START
    && forall k :: 0 <= k < |events| ==>
         Possible(states[k], events[k]) && |states[k].owners| == |states[k].daemon.pending|
         && states[k + 1] == Next(states[k], events[k])
  }

  lemma {:induction false} RunKeepsLog(states: seq<Joint>, events: seq<Event>, k: nat)
    requires IsRun(states, events) && k < |states|
    ensures Logged(states[k])
  {
    if k == 0 {
      RunsLoseNothing([]);
      StaysInLockstep([]);
    } else {
      RunKeepsLog(states, events, k - 1);
      NextKeepsLog(states[k - 1], events[k - 1]);
    }
  }

  /** As long as no container is disconnected while a request of its own is held back, every
      request leaves by the gate of the container it came from or was for. */
  lemma {:induction false} RequestsFindTheirContainer(states: seq<Joint>, events: seq<Event>, k: nat)
    requires IsRun(states, events) && k < |states|
    requires forall i :: 0 <= i < k ==> Careful(states[i], events[i])
    ensures |states[k].owners| == |states[k].daemon.pending| && Placed(states[k])
    ensures |states[k].exits| == |states[k].daemon.sent| && AllRight(states[k].exits)
  {
    RunKeepsLog(states, events, k);
    if k > 0 {
      RunKeepsLog(states, events, k - 1);
      RequestsFindTheirContainer(states, events, k - 1);
      CarefulKeeps(states[k - 1], events[k - 1]);
    }
  }

  // ---------------------------------------------------------------- the careless case

  /** Without holes, the position of a container that is disconnected goes to the next one. */
  lemma PositionIsReused(w: Wiring, c: nat, e: nat)
    requires Lockstep(w) && w.toApps.holes == [] && c in w.previous && e !in w.previous
    ensures var w1 := ContainerGates.Step(w, UnlinkOp(c));
            && w1.Some? && Lockstep(w1.value)
            && var w2 := ContainerGates.Step(w1.value, LinkOp(e));
            w2.Some? && Lockstep(w2.value) && e in w2.value.previous && w2.value.previous[e] == w.previous[c]
  {
    WiringKeeps(w, UnlinkOp(c));
    WiringKeeps(ContainerGates.Step(w, UnlinkOp(c)).value, LinkOp(e));
  }

  lemma LeavesByHolder(w: Wiring, e: nat, owner: nat, m: Msg)
    requires Lockstep(w) && e in w.previous && w.previous[e] == m.gate
    ensures ExitOf(w, owner, m).via == Some(e)
  {
  }

  /** In any state without holes where container c has requests held back: disconnect it,
      connect another one, activate the daemon, and each of them leaves by the gate of that
      other container. */
  lemma CarelessMisdelivers(j: Joint, c: nat, e: nat, i: nat)
    requires Logged(j) && Placed(j) && j.wiring.toApps.holes == []
    requires i < |j.owners| && j.owners[i] == c && e !in j.wiring.previous
    ensures var j1 := Next(j, Wire(UnlinkOp(c)));
            && |j1.owners| == |j1.daemon.pending|
            && var j2 := Next(j1, Wire(LinkOp(e)));
            && |j2.owners| == |j2.daemon.pending|
            && var j3 := Next(j2, Traffic(Unblock));
            && i < |j3.exits| - |j.exits|
            && j3.exits[|j.exits| + i] == Exit(c, j.daemon.pending[i].gate, Some(e))
  {
    PositionIsReused(j.wiring, c, e);
    var j2 := Next(Next(j, Wire(UnlinkOp(c))), Wire(LinkOp(e)));
    assert j2 == j.(wiring := j2.wiring);
    LeavesByHolder(j2.wiring, e, c, j.daemon.pending[i]);
    assert Released(j2)[i] == Exit(c, j.daemon.pending[i].gate, Some(e));
  }
}
