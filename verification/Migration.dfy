/** The message switch of a Docker daemon: what it forwards, what it holds back while a
    migration is on, and how it counts the work it has outstanding. */
module Migration {
  import opened CommIds

  datatype Kind = Cpu | Io | Mem | Net | Other

  /** The gate vector a message arrived on. */
  datatype Origin = FromOS | FromApps

  datatype Operation = StopAndDownContainer | ContainerActivation | Ordinary

  datatype Address = Address(destinationIP: string, destinationPort: int, localIP: string, localPort: int)

  datatype Virtual = Virtual(user: int, address: Address)

  datatype Msg = Msg(id: int, kind: Kind, operation: Operation, isResponse: bool, origin: Origin, gate: nat,
                     commId: int, uid: int, pid: int, address: Address, virtual: Virtual)

  datatype Sent = ToApps(gate: nat, msg: Msg) | ToOS(gate: nat, msg: Msg)

  datatype Counters = Counters(cpu: int, io: int, mem: int, net: int)

  /** The daemon's fields, with what it has sent so far: requests, responses, and the
      answers to the orders to stop. */
  datatype Daemon = Daemon(active: bool, pending: seq<Msg>, counters: Counters, comm: seq<Vm>, uid: int, pid: int,
                           sent: seq<Sent>, answers: seq<Msg>, notices: seq<Msg>)

  const INITIAL: Daemon := Daemon(false, [], Counters(0, 0, 0, 0), [], -1, -1, [], [], [])

  /** updateCounters() */
  function Count(c: Counters, kind: Kind, quantity: int): Counters {
    match kind
    case Cpu => c.(cpu := c.cpu + quantity)
    case Io => c.(io := c.io + quantity)
    case Mem => c.(mem := c.mem + quantity)
    case Net => c.(net := c.net + quantity)
    case Other => c
  }

  /** The counter of a kind; messages of any other kind have none. */
  function Counter(c: Counters, kind: Kind): int
    requires !kind.Other?
  {
    match kind case Cpu => c.cpu case Io => c.io case Mem => c.mem case Net => c.net
  }

  /** migrationPrepared() */
  predicate Prepared(c: Counters) {
    c == Counters(0, 0, 0, 0)
  }

  /** What the daemon writes into every ordinary request. */
  function Stamp(d: Daemon, m: Msg): Msg {
    m.(pid := d.pid, uid := d.uid)
  }

  function Remember(comm: seq<Vm>, m: Msg): seq<Vm> {
    if m.kind.Net? && m.commId != -1 then Insert(comm, m.uid, m.pid, Entry(m.commId, m.id)) else comm
  }

  /** What it writes besides into an application's request that it forwards at once. */
  function Rewrite(m: Msg): Msg {
    var m := m.(commId := m.gate);
    if m.kind.Net? then m.(virtual := Virtual(if m.virtual.user == -1 then m.uid else m.virtual.user, m.address)) else m
  }

  function Forward(d: Daemon, m: Msg): Daemon {
    match m.origin
    case FromOS => d.(sent := d.sent + [ToApps(m.gate, m)])
    case FromApps => d.(counters := Count(d.counters, m.kind, 1), sent := d.sent + [ToOS(m.gate, Rewrite(m))])
  }

  /** sendPendingMessage() */
  function SendPending(d: Daemon, m: Msg): Daemon {
    if m.isResponse then d.(answers := d.answers + [m])
    else match m.origin
      case FromOS => d.(sent := d.sent + [ToApps(m.gate, m)])
      case FromApps => d.(counters := Count(d.counters, m.kind, 1), sent := d.sent + [ToOS(m.gate, m)])
  }

  /** flushPendingMessages() */
  function Flush(d: Daemon): Daemon
    decreases |d.pending|
  {
    if d.pending == [] then d else Flush(SendPending(d, d.pending[0]).(pending := d.pending[1..]))
  }

  function Activate(d: Daemon): Daemon {
    Flush(d.(active := false))
  }

  /** processRequestMessage() */
  function Request(d: Daemon, m: Msg): Daemon {
    match m.operation
    case StopAndDownContainer =>
      if d.active then d
      else if Prepared(d.counters) then d.(active := true, notices := d.notices + [m.(isResponse := true)])
      else d.(active := true)
    case ContainerActivation => Activate(d)
    case Ordinary =>
      var m := Stamp(d, m);
      var d := d.(comm := Remember(d.comm, m));
      if d.active then d.(pending := d.pending + [m]) else Forward(d, m)
  }

  function Restore(comm: seq<Vm>, m: Msg): Msg {
    var taken := Take(comm, m.uid, m.pid, m.id).commId;
    if m.kind.Net? && taken.Some? then m.(commId := taken.value) else m
  }

  /** processResponseMessage() */
  function Response(d: Daemon, m: Msg): Daemon {
    d.(counters := Count(d.counters, m.kind, -1),
       comm := if m.kind.Net? then Take(d.comm, m.uid, m.pid, m.id).table else d.comm,
       answers := d.answers + [Restore(d.comm, m)])
  }

  datatype Event = Arrive(msg: Msg) | Block | Unblock | SetId(uid: int, pid: int)

  function Step(d: Daemon, e: Event): Daemon {
    match e
    case Arrive(m) => if m.isResponse then Response(d, m) else Request(d, m)
    case Block => d.(active := true)
    case Unblock => Activate(d)
    case SetId(u, p) => d.(uid := u, pid := p)
  }

  function After(d: Daemon, events: seq<Event>): Daemon {
    if events == [] then d else Step(After(d, events[..|events| - 1]), events[|events| - 1])
  }
}
