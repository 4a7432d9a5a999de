/** DockerDaemon: the module between the applications in containers and the operating
    system of the node. */
module DockerDaemon {
  import opened Wrappers
  import opened Sequences
  import opened CommIds
  import opened Migration
  import GateManager
  import ContainerGates

  // ------------------------------------------------- facts for the loops

  lemma {:induction false} InsertAt(t: seq<Vm>, i: nat, uid: int, pid: int, entry: Entry)
    requires i <= |t| && forall k :: 0 <= k < i ==> t[k].uid != uid || t[k].pid != pid
    ensures i == |t| ==> Insert(t, uid, pid, entry) == t + [Vm(uid, pid, [entry])]
    ensures i < |t| && t[i].uid == uid && t[i].pid == pid ==>
              Insert(t, uid, pid, entry) == t[i := t[i].(internals := t[i].internals + [entry])]
  {
    if i > 0 { InsertAt(t[1..], i - 1, uid, pid, entry); }
  }

  lemma {:induction false} TakeBehind(a: seq<Vm>, b: seq<Vm>, uid: int, pid: int, msgId: int)
    requires forall k :: 0 <= k < |a| ==> !Matches(a[k], uid, pid, msgId)
    ensures Take(a + b, uid, pid, msgId).commId == Take(b, uid, pid, msgId).commId
    ensures Take(a + b, uid, pid, msgId).table == a + Take(b, uid, pid, msgId).table
  {
    if a == [] {
      assert a + b == b;
    } else {
      assert (a + b)[1..] == a[1..] + b;
      TakeBehind(a[1..], b, uid, pid, msgId);
      assert [a[0]] + (a[1..] + Take(b, uid, pid, msgId).table) == a + Take(b, uid, pid, msgId).table;
    }
  }

  lemma TakeAt(t: seq<Vm>, i: nat, uid: int, pid: int, msgId: int)
    requires i <= |t| && forall k :: 0 <= k < i ==> !Matches(t[k], uid, pid, msgId)
    ensures i == |t| ==> Take(t, uid, pid, msgId).commId == None && Take(t, uid, pid, msgId).table == t
    ensures i < |t| && Matches(t[i], uid, pid, msgId) ==>
              var j := Find(t[i].internals, msgId);
              var rest := Without(t[i].internals, j);
              && Take(t, uid, pid, msgId).commId == Some(t[i].internals[j].commId)
              && Take(t, uid, pid, msgId).table
                 == if rest == [] then t[..i] + t[i + 1..] else t[i := t[i].(internals := rest)]
  {
    TakeBehind(t[..i], t[i..], uid, pid, msgId);
    assert t[..i] + t[i..] == t;
  }

  lemma {:induction false} FindAt(entries: seq<Entry>, j: nat, msgId: int)
    requires j <= |entries| && forall k :: 0 <= k < j ==> entries[k].msgId != msgId
    ensures j == |entries| || entries[j].msgId == msgId ==> Find(entries, msgId) == j
  {
    if j > 0 { FindAt(entries[1..], j - 1, msgId); }
  }

  /** One round of the loop in flushPendingMessages(). */
  function Sent1(d: Daemon): (r: Daemon)
    requires d.pending != []
    ensures |r.pending| == |d.pending| - 1
  {
    SendPending(d, d.pending[0]).(pending := d.pending[1..])
  }

  lemma FlushUnfolds(d: Daemon)
    requires d.pending != []
    ensures Flush(d) == Flush(Sent1(d))
  {
  }

  // ---------------------------------------------------------------- the object

  class DockerDaemon {
    var migrateActive: bool
    var pendingMessages: seq<Msg>
    var pendingCPUMsg: int
    var pendingNetMsg: int
    var pendingMemoryMsg: int
    var pendingIOMsg: int
    var migrationMsg: Option<Msg>
    var uId: int
    var pId: int
    var commVector: seq<Vm>

    const fromOSApps: GateManager.GateVector
    const toOSApps: GateManager.GateVector
    const fromApps: GateManager.GateVector
    const toApps: GateManager.GateVector

    /** The container connected at each position, and back. */
    var toAppsPeer: map<nat, nat>
    var fromAppsPeer: map<nat, nat>
    var toOSPeer: map<nat, nat>
    var fromOSPeer: map<nat, nat>
    var previous: map<nat, nat>

    /** What has been handed to the kernel for sending. */
    var sent: seq<Sent>
    var answers: seq<Msg>
    var notices: seq<Msg>

    function View(): Daemon
      reads this
    {
      Daemon(migrateActive, pendingMessages, Counters(pendingCPUMsg, pendingIOMsg, pendingMemoryMsg, pendingNetMsg),
             commVector, uId, pId, sent, answers, notices)
    }

    function Wires(): ContainerGates.Wiring
      reads this`toAppsPeer, this`fromAppsPeer, this`toOSPeer, this`fromOSPeer, this`previous
      reads toApps, fromApps, toOSApps, fromOSApps
    {
      ContainerGates.Wiring(toApps.View(), fromApps.View(), toOSApps.View(), fromOSApps.View(),
                            toAppsPeer, fromAppsPeer, toOSPeer, fromOSPeer, previous)
    }

    /** Four separate managers; gate identifiers are unique. */
    ghost predicate Apart() {
      && toApps != fromApps && toApps != toOSApps && toApps != fromOSApps
      && fromApps != toOSApps && fromApps != fromOSApps && toOSApps != fromOSApps
      && (forall i: nat, j: nat :: toApps.gateIds(i) == toApps.gateIds(j) ==> i == j)
    }

    ghost predicate Valid()
      reads this, toApps, fromApps, toOSApps, fromOSApps
    {
      Apart() && ContainerGates.Lockstep(Wires())
    }

    constructor (toAppsIds: nat -> int, fromAppsIds: nat -> int, toOSIds: nat -> int, fromOSIds: nat -> int)
      requires forall i: nat, j: nat :: toAppsIds(i) == toAppsIds(j) ==> i == j
      ensures Valid() && View() == INITIAL && Wires() == ContainerGates.UNWIRED
      ensures fresh(toApps) && fresh(fromApps) && fresh(toOSApps) && fresh(fromOSApps)
    {
      migrateActive, pendingMessages, migrationMsg := false, [], None;
      pendingCPUMsg, pendingNetMsg, pendingMemoryMsg, pendingIOMsg := 0, 0, 0, 0;
      uId, pId, commVector := -1, -1, [];
      toAppsPeer, fromAppsPeer, toOSPeer, fromOSPeer, previous := map[], map[], map[], map[], map[];
      sent, answers, notices := [], [], [];
      var gates := new GateManager.GateVector(fromOSIds);
      fromOSApps := gates;
      gates := new GateManager.GateVector(toOSIds);
      toOSApps := gates;
      gates := new GateManager.GateVector(fromAppsIds);
      fromApps := gates;
      gates := new GateManager.GateVector(toAppsIds);
      toApps := gates;
      new;
      ContainerGates.StaysInLockstep([]);
    }

    method SetId(userId: int, vmId: int)
      modifies this`uId, this`pId
      ensures View() == Step(old(View()), Event.SetId(userId, vmId))
    {
      uId, pId := userId, vmId;
    }

    method BlockMessages()
      modifies this`migrateActive
      ensures View() == Step(old(View()), Block)
    {
      migrateActive := true;
    }

    method ActivateMessages()
      modifies this
      ensures View() == Step(old(View()), Unblock) && Wires() == old(Wires())
    {
      migrateActive := false;
      FlushPendingMessages();
    }

    method MigrationPrepared() returns (prepared: bool)
      ensures prepared <==> Prepared(View().counters)
    {
      prepared := pendingCPUMsg == 0 && pendingIOMsg == 0 && pendingNetMsg == 0 && pendingMemoryMsg == 0;
    }

    method UpdateCounters(m: Msg, quantity: int)
      modifies this`pendingCPUMsg, this`pendingIOMsg, this`pendingMemoryMsg, this`pendingNetMsg
      ensures View() == old(View()).(counters := Count(old(View()).counters, m.kind, quantity))
    {
      if m.kind.Cpu? {
        pendingCPUMsg := pendingCPUMsg + quantity;
      } else if m.kind.Io? {
        pendingIOMsg := pendingIOMsg + quantity;
      } else if m.kind.Mem? {
        pendingMemoryMsg := pendingMemoryMsg + quantity;
      } else if m.kind.Net? {
        pendingNetMsg := pendingNetMsg + quantity;
      }
    }

    method InsertCommId(uid: int, pid: int, commId: int, msgId: int)
      modifies this`commVector
      ensures commVector == Insert(old(commVector), uid, pid, Entry(commId, msgId))
    {
      var entry := Entry(commId, msgId);
      var found, i := false, 0;
      while i < |commVector| && !found
        invariant 0 <= i <= |commVector|
        invariant !found ==> commVector == old(commVector)
        invariant !found ==> forall k :: 0 <= k < i ==> commVector[k].uid != uid || commVector[k].pid != pid
        invariant found ==> commVector == Insert(old(commVector), uid, pid, entry)
        decreases |commVector| - i, !found
      {
        if commVector[i].uid == uid && commVector[i].pid == pid {
          InsertAt(commVector, i, uid, pid, entry);
          commVector := commVector[i := commVector[i].(internals := commVector[i].internals + [entry])];
          found := true;
        }
        i := i + 1;
      }
      if !found {
        InsertAt(commVector, i, uid, pid, entry);
        commVector := commVector + [Vm(uid, pid, [entry])];
      }
    }

    /** The search among the entries of one machine. */
    method FindEntry(entries: seq<Entry>, msgId: int) returns (found: bool, j: nat)
      ensures j == Find(entries, msgId) && found == (j < |entries|)
    {
      found, j := false, 0;
      while j < |entries| && !found
        invariant j <= |entries| && forall k :: 0 <= k < j ==> entries[k].msgId != msgId
        invariant found ==> j < |entries| && entries[j].msgId == msgId
        decreases |entries| - j, !found
      {
        if entries[j].msgId == msgId {
          found := true;
        } else {
          j := j + 1;
        }
      }
      FindAt(entries, j, msgId);
    }

    method UpdateCommId(m: Msg) returns (r: Msg)
      modifies this`commVector
      ensures commVector == Take(old(commVector), m.uid, m.pid, m.id).table
      ensures r == match Take(old(commVector), m.uid, m.pid, m.id).commId case None => m case Some(c) => m.(commId := c)
    {
      r := m;
      var found, i := false, 0;
      while i < |commVector| && !found
        invariant 0 <= i
        invariant !found ==> i <= |commVector| && commVector == old(commVector) && r == m
                             && forall k :: 0 <= k < i ==> !Matches(commVector[k], m.uid, m.pid, m.id)
        invariant found ==> commVector == Take(old(commVector), m.uid, m.pid, m.id).table
                            && Take(old(commVector), m.uid, m.pid, m.id).commId == Some(r.commId)
                            && r == m.(commId := r.commId)
        decreases |commVector| - i, !found
      {
        var comm := commVector[i];
        if m.uid == comm.uid && m.pid == comm.pid {
          var j;
          found, j := FindEntry(comm.internals, m.id);
          if found {
            TakeAt(commVector, i, m.uid, m.pid, m.id);
            r := m.(commId := comm.internals[j].commId);
            var rest := Without(comm.internals, j);
            if rest == [] {
              commVector := commVector[..i] + commVector[i + 1..];
            } else {
              commVector := commVector[i := comm.(internals := rest)];
            }
          }
        }
        i := i + 1;
      }
      if !found { TakeAt(commVector, i, m.uid, m.pid, m.id); }
    }

    /** A pending migration order is answered at once or not at all. */
    method NotifyContainerPreparedToMigrate()
      requires migrationMsg.Some?
      modifies this`notices
      ensures notices == old(notices) + [migrationMsg.value]
    {
      notices := notices + [migrationMsg.value];
    }

    /** An order to stop is taken for a network message; any other kind is a null dereference. */
    method ProcessRequestMessage(msg: Msg)
      requires msg.operation.StopAndDownContainer? && !migrateActive ==> msg.kind.Net?
      modifies this
      ensures View() == Request(old(View()), msg) && Wires() == old(Wires())
    {
      if msg.operation.StopAndDownContainer? {
        if !migrateActive {
          BlockMessages();
          migrationMsg := Some(msg.(isResponse := true));
          var prepared := MigrationPrepared();
          if prepared {
            NotifyContainerPreparedToMigrate();
          }
        }
      } else if msg.operation.ContainerActivation? {
        FinishMigration();
      } else {
        ProcessOrdinaryRequest(msg);
      }
    }

    method ProcessOrdinaryRequest(msg: Msg)
      requires msg.operation.Ordinary?
      modifies this`commVector, this`pendingMessages, this`sent
      modifies this`pendingCPUMsg, this`pendingIOMsg, this`pendingMemoryMsg, this`pendingNetMsg
      ensures View() == Request(old(View()), msg) && Wires() == old(Wires())
    {
      var m := msg.(pid := pId);
      m := m.(uid := uId);
      RememberCommId(m);
      if migrateActive {
        pendingMessages := pendingMessages + [m];
      } else if m.origin.FromOS? {
        sent := sent + [ToApps(m.gate, m)];
      } else {
        ForwardFromApps(m);
      }
    }

    method RememberCommId(m: Msg)
      requires m.uid == uId && m.pid == pId
      modifies this`commVector
      ensures commVector == Remember(old(commVector), m)
    {
      if m.kind.Net? && m.commId != -1 {
        InsertCommId(uId, pId, m.commId, m.id);
      }
    }

    method ForwardFromApps(msg: Msg)
      modifies this`sent, this`pendingCPUMsg, this`pendingIOMsg, this`pendingMemoryMsg, this`pendingNetMsg
      ensures View() == old(View()).(counters := Count(old(View()).counters, msg.kind, 1),
                                     sent := old(View()).sent + [ToOS(msg.gate, Rewrite(msg))])
    {
      UpdateCounters(msg, 1);
      var m := msg.(commId := msg.gate);
      if m.kind.Net? {
        if m.virtual.user == -1 {
          m := m.(virtual := m.virtual.(user := m.uid));
        }
        m := m.(virtual := m.virtual.(address := m.address));
      }
      sent := sent + [ToOS(m.commId, m)];
    }

    method ProcessResponseMessage(msg: Msg)
      modifies this
      ensures View() == Response(old(View()), msg) && Wires() == old(Wires())
    {
      UpdateCounters(msg, -1);
      var m := msg;
      if m.kind.Net? {
        m := UpdateCommId(m);
      }
      answers := answers + [m];
    }

    /** handleMessage(): the step that the runs of MigrationRuns are made of. */
    method HandleMessage(msg: Msg)
      requires !msg.isResponse && msg.operation.StopAndDownContainer? && !migrateActive ==> msg.kind.Net?
      modifies this
      ensures View() == Step(old(View()), Arrive(msg)) && Wires() == old(Wires())
    {
      if !msg.isResponse {
        ProcessRequestMessage(msg);
      } else {
        ProcessResponseMessage(msg);
      }
    }

    method FinishMigration()
      modifies this
      ensures View() == Activate(old(View())) && Wires() == old(Wires())
    {
      migrateActive := false;
      FlushPendingMessages();
    }

    method SendPendingMessage(m: Msg)
      modifies this`sent, this`answers, this`pendingCPUMsg, this`pendingIOMsg, this`pendingMemoryMsg, this`pendingNetMsg
      ensures View() == SendPending(old(View()), m)
    {
      if m.isResponse {
        answers := answers + [m];
      } else if m.origin.FromOS? {
        sent := sent + [ToApps(m.gate, m)];
      } else {
        UpdateCounters(m, 1);
        sent := sent + [ToOS(m.gate, m)];
      }
    }

    method FlushPendingMessages()
      modifies this`pendingMessages, this`sent, this`answers
      modifies this`pendingCPUMsg, this`pendingIOMsg, this`pendingMemoryMsg, this`pendingNetMsg
      ensures View() == Flush(old(View())) && Wires() == old(Wires())
    {
      while |pendingMessages| > 0
        invariant Flush(View()) == Flush(old(View()))
        decreases |pendingMessages|
      {
        FlushUnfolds(View());
        SendOldest();
      }
    }

    method SendOldest()
      requires pendingMessages != []
      modifies this`pendingMessages, this`sent, this`answers
      modifies this`pendingCPUMsg, this`pendingIOMsg, this`pendingMemoryMsg, this`pendingNetMsg
      ensures View() == Sent1(old(View()))
    {
      SendPendingMessage(pendingMessages[0]);
      pendingMessages := pendingMessages[1..];
    }

    /** What linkNewContainer() does to the managers, where none of them throws. */
    method ConnectContainer(container: nat) returns (idxToApps: nat, idxFromApps: nat, idxToOs: nat, idxFromOS: nat)
      requires Apart() && ContainerGates.LinkContainer(Wires(), container).Some?
      modifies this, toApps, fromApps, toOSApps, fromOSApps
      ensures View() == old(View()) && Wires() == ContainerGates.LinkContainer(old(Wires()), container).value
      ensures idxToApps == GateManager.Position(old(toApps.View()))
      ensures idxFromApps == GateManager.Position(old(fromApps.View()))
      ensures idxToOs == GateManager.Position(old(toOSApps.View()))
      ensures idxFromOS == GateManager.Position(old(fromOSApps.View()))
    {
      idxToApps, idxFromApps, idxToOs, idxFromOS := NewGates();
      toAppsPeer, previous := toAppsPeer[idxToApps := container], previous[container := idxToApps];
      fromAppsPeer := fromAppsPeer[idxFromApps := container];
      toOSPeer := toOSPeer[idxToOs := container];
      fromOSPeer := fromOSPeer[idxFromOS := container];
    }

    method NewGates() returns (idxToApps: nat, idxFromApps: nat, idxToOs: nat, idxFromOS: nat)
      requires Apart()
      requires GateManager.New(toApps.View()).Some? && GateManager.New(fromApps.View()).Some?
      requires GateManager.New(toOSApps.View()).Some? && GateManager.New(fromOSApps.View()).Some?
      modifies toApps, fromApps, toOSApps, fromOSApps
      ensures toApps.View() == GateManager.New(old(toApps.View())).value
      ensures fromApps.View() == GateManager.New(old(fromApps.View())).value
      ensures toOSApps.View() == GateManager.New(old(toOSApps.View())).value
      ensures fromOSApps.View() == GateManager.New(old(fromOSApps.View())).value
      ensures idxToApps == GateManager.Position(old(toApps.View()))
      ensures idxFromApps == GateManager.Position(old(fromApps.View()))
      ensures idxToOs == GateManager.Position(old(toOSApps.View()))
      ensures idxFromOS == GateManager.Position(old(fromOSApps.View()))
    {
      var ok;
      ok, idxToApps := toApps.NewGate();
      ok, idxFromApps := fromApps.NewGate();
      ok, idxToOs := toOSApps.NewGate();
      ok, idxFromOS := fromOSApps.NewGate();
    }

    /** A container that is not connected gets one position in all four vectors. */
    method LinkNewContainer(container: nat) returns (idxToApps: nat, idxFromApps: nat, idxToOs: nat, idxFromOS: nat)
      requires Valid() && container !in previous
      modifies this, toApps, fromApps, toOSApps, fromOSApps
      ensures Valid() && View() == old(View())
      ensures Wires() == ContainerGates.LinkContainer(old(Wires()), container).value
      ensures idxToApps == idxFromApps == idxToOs == idxFromOS && idxToApps !in old(toAppsPeer)
      ensures previous == old(previous)[container := idxToApps]
    {
      ContainerGates.LinkKeeps(Wires(), container);
      idxToApps, idxFromApps, idxToOs, idxFromOS := ConnectContainer(container);
    }

    method FreeGates(position: nat)
      requires Apart()
      requires GateManager.InUse(toApps.View(), position) && GateManager.InUse(fromApps.View(), position)
      requires GateManager.InUse(toOSApps.View(), position) && GateManager.InUse(fromOSApps.View(), position)
      modifies toApps, fromApps, toOSApps, fromOSApps
      ensures toApps.View() == GateManager.Free(old(toApps.View()), position).value
      ensures fromApps.View() == GateManager.Free(old(fromApps.View()), position).value
      ensures toOSApps.View() == GateManager.Free(old(toOSApps.View()), position).value
      ensures fromOSApps.View() == GateManager.Free(old(fromOSApps.View()), position).value
    {
      var ok := toOSApps.FreeGate(position);
      ok := toApps.FreeGate(position);
      ok := fromApps.FreeGate(position);
      ok := fromOSApps.FreeGate(position);
    }

    method SearchPosition(container: nat) returns (position: int)
      requires Apart() && container in previous && GateManager.InUse(toApps.View(), previous[container])
      ensures position == previous[container]
    {
      position := toApps.SearchGate(toApps.gateIds(previous[container]));
    }

    method DisconnectContainer(container: nat) returns (position: int)
      requires Apart() && container in previous && ContainerGates.UnlinkContainer(Wires(), container).Some?
      modifies this, toApps, fromApps, toOSApps, fromOSApps
      ensures View() == old(View()) && position == old(previous)[container]
      ensures Wires() == ContainerGates.UnlinkContainer(old(Wires()), container).value
    {
      position := SearchPosition(container);
      FreeGates(position);
      toAppsPeer, fromAppsPeer := toAppsPeer - {position}, fromAppsPeer - {position};
      toOSPeer, fromOSPeer := toOSPeer - {position}, fromOSPeer - {position};
      previous := previous - {container};
    }

    method UnlinkContainer(container: nat) returns (position: int)
      requires Valid() && container in previous
      modifies this, toApps, fromApps, toOSApps, fromOSApps
      ensures Valid() && View() == old(View()) && position == old(previous)[container]
      ensures Wires() == ContainerGates.UnlinkContainer(old(Wires()), container).value
    {
      ContainerGates.UnlinkKeeps(Wires(), container);
      position := DisconnectContainer(container);
    }
  }
}
