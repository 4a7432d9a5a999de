/** The four gate managers of a Docker daemon, which must hand out the same position for
    the same container although each keeps its own books. */
module ContainerGates {
  import opened Wrappers
  import opened GateManager

  /** Per gate vector its books and the container connected at each position;
      `previous` is the toApps position connected to a container's own gate. */
  datatype Wiring = Wiring(
    toApps: Gates, fromApps: Gates, toOS: Gates, fromOS: Gates,
    toAppsPeer: map<nat, nat>, fromAppsPeer: map<nat, nat>, toOSPeer: map<nat, nat>, fromOSPeer: map<nat, nat>,
    previous: map<nat, nat>)

  const UNWIRED: Wiring := Wiring(EMPTY, EMPTY, EMPTY, EMPTY, map[], map[], map[], map[], map[])

  /** linkNewContainer(); None where one of the managers throws. */
  function LinkContainer(w: Wiring, c: nat): Option<Wiring> {
    var ta, fa, tos, fos := New(w.toApps), New(w.fromApps), New(w.toOS), New(w.fromOS);
    if ta.None? || fa.None? || tos.None? || fos.None? then None
    else Some(Wiring(ta.value, fa.value, tos.value, fos.value,
                     w.toAppsPeer[Position(w.toApps) := c], w.fromAppsPeer[Position(w.fromApps) := c],
                     w.toOSPeer[Position(w.toOS) := c], w.fromOSPeer[Position(w.fromOS) := c],
                     w.previous[c := Position(w.toApps)]))
  }

  /** unlinkContainer(): one position, found in toApps, is freed in all four managers. */
  function UnlinkContainer(w: Wiring, c: nat): Option<Wiring>
    requires c in w.previous
  {
    var p := w.previous[c];
    if !InUse(w.toOS, p) || !InUse(w.toApps, p) || !InUse(w.fromApps, p) || !InUse(w.fromOS, p) then None
    else Some(Wiring(Free(w.toApps, p).value, Free(w.fromApps, p).value, Free(w.toOS, p).value, Free(w.fromOS, p).value,
                     w.toAppsPeer - {p}, w.fromAppsPeer - {p}, w.toOSPeer - {p}, w.fromOSPeer - {p},
                     w.previous - {c}))
  }

  /** One set of books, one position per container, one container per position. */
  ghost predicate Lockstep(w: Wiring) {
    && w.toApps == w.fromApps == w.toOS == w.fromOS && Valid(w.toApps)
    && w.toAppsPeer == w.fromAppsPeer == w.toOSPeer == w.fromOSPeer
    && Booked(w.toApps, w.toAppsPeer) && Paired(w.toAppsPeer, w.previous)
  }

  /** The books of one vector against the containers connected to it. */
  ghost predicate Booked(g: Gates, peer: map<nat, nat>) {
    forall p: nat :: InUse(g, p) <==> p in peer
  }

  predicate Paired(peer: map<nat, nat>, previous: map<nat, nat>) {
    && (forall p :: p in peer ==> peer[p] in previous && previous[peer[p]] == p)
    && (forall c :: c in previous ==> previous[c] in peer && peer[previous[c]] == c)
  }

  lemma BookingKeeps(g: Gates, peer: map<nat, nat>, c: nat)
    requires Valid(g) && Booked(g, peer)
    ensures New(g).Some? && Valid(New(g).value) && Booked(New(g).value, peer[Position(g) := c]) && Position(g) !in peer
  {
    NewKeeps(g);
  }

  lemma FreeingKeeps(g: Gates, peer: map<nat, nat>, q: nat)
    requires Valid(g) && Booked(g, peer) && q in peer
    ensures Free(g, q).Some? && Valid(Free(g, q).value) && Booked(Free(g, q).value, peer - {q})
  {
    FreeKeeps(g, q);
  }

  lemma LinkKeeps(w: Wiring, c: nat)
    requires Lockstep(w) && c !in w.previous
    ensures LinkContainer(w, c).Some? && Lockstep(LinkContainer(w, c).value)
    ensures Position(w.toApps) == Position(w.fromApps) == Position(w.toOS) == Position(w.fromOS)
    ensures Position(w.toApps) !in w.toAppsPeer
  {
    BookingKeeps(w.toApps, w.toAppsPeer, c);
  }

  lemma UnlinkKeeps(w: Wiring, c: nat)
    requires Lockstep(w) && c in w.previous
    ensures UnlinkContainer(w, c).Some? && Lockstep(UnlinkContainer(w, c).value)
  {
    FreeingKeeps(w.toApps, w.toAppsPeer, w.previous[c]);
  }

  datatype Op = LinkOp(container: nat) | UnlinkOp(container: nat)

  /** A container is linked when it is not, and unlinked when it is; anything else is skipped. */
  function Step(w: Wiring, op: Op): Option<Wiring> {
    match op
    case LinkOp(c) => if c in w.previous then Some(w) else LinkContainer(w, c)
    case UnlinkOp(c) => if c in w.previous then UnlinkContainer(w, c) else Some(w)
  }

  function After(ops: seq<Op>): Option<Wiring> {
    if ops == [] then Some(UNWIRED)
    else
      var w := After(ops[..|ops| - 1]);
      if w.None? then None else Step(w.value, ops[|ops| - 1])
  }

  lemma {:induction false} StaysInLockstep(ops: seq<Op>)
    ensures After(ops).Some? && Lockstep(After(ops).value)
  {
    if ops == [] {
      assert Live([]) == 0;
    } else {
      StaysInLockstep(ops[..|ops| - 1]);
      var w := After(ops[..|ops| - 1]).value;
      match ops[|ops| - 1]
      case LinkOp(c) => if c !in w.previous { LinkKeeps(w, c); }
      case UnlinkOp(c) => if c in w.previous { UnlinkKeeps(w, c); }
    }
  }

  /** After any sequence of links and unlinks, what enters at fromApps[i] leaves at the
      toOSApps[i] of the same container, what enters at fromOSApps[i] at its toApps[i]; and
      live containers have distinct positions. */
  lemma RequestsStayWithTheirContainer(ops: seq<Op>, i: nat, c: nat, d: nat)
    ensures After(ops).Some?
    ensures var w := After(ops).value;
            (i in w.fromAppsPeer ==> InUse(w.toOS, i) && i in w.toOSPeer && w.toOSPeer[i] == w.fromAppsPeer[i])
            && (i in w.fromOSPeer ==> InUse(w.toApps, i) && i in w.toAppsPeer && w.toAppsPeer[i] == w.fromOSPeer[i])
            && (c in w.previous && d in w.previous && c != d ==> w.previous[c] != w.previous[d])
            && (c in w.previous ==> w.previous[c] in w.fromAppsPeer && w.fromAppsPeer[w.previous[c]] == c)
  {
    StaysInLockstep(ops);
  }
}
