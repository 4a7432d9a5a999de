/** The matching engine of MPI_Base: a rank keeps the calls that arrived from
    other ranks in a list and matches them against the one call it is blocked in. */
module Matching {
  import opened Wrappers
  import opened Sequences

  const MPI_ANY_SENDER: nat := 4294967294
  const MPI_NO_VALUE: nat := 999999999
  const MPI_SEND: nat := 100
  const MPI_RECV: nat := 200
  const MPI_BARRIER_UP: nat := 301
  const MPI_BARRIER_DOWN: nat := 302
  const MPI_BCAST: nat := 400
  const MPI_SCATTER: nat := 500
  const MPI_GATHER: nat := 600

  /** One MPI call. `tag` names the message it came from; no rule reads it. */
  datatype Call = Call(op: nat, sender: nat, root: nat, size: int, tag: nat)

  const NO_CALL: Call := Call(MPI_NO_VALUE, MPI_NO_VALUE, MPI_NO_VALUE, -1, 0)

  /** What synchronize() looks for: the triple handed to searchMPICall(). */
  datatype Key = Key(op: nat, sender: nat, size: int)

  function SearchKey(current: Call): Key {
    if current.op == MPI_RECV then Key(MPI_SEND, current.sender, current.size)
    else if current.op == MPI_BCAST then Key(MPI_BCAST, current.root, current.size)
    else if current.op == MPI_SCATTER then Key(MPI_SCATTER, current.sender, current.size)
    else Key(MPI_NO_VALUE, MPI_NO_VALUE, 0)
  }

  predicate Fits(key: Key, c: Call) {
    && c.op == key.op
    && c.size == key.size
    && (key.sender == MPI_ANY_SENDER || c.sender == key.sender)
  }

  /** Index of the earliest listed call that fits, or |list|. */
  function FirstFit(key: Key, list: seq<Call>): (i: nat)
    ensures i <= |list|
    ensures forall j :: 0 <= j < i ==> !Fits(key, list[j])
    ensures i < |list| ==> Fits(key, list[i])
  {
    if list == [] then 0
    else if Fits(key, list[0]) then 0
    else 1 + FirstFit(key, list[1..])
  }

  predicate Listable(op: nat) {
    op == MPI_SEND || op == MPI_SCATTER || op == MPI_BCAST
  }

  /** insertMPICall(): the listed form of the message that arrives as number `tag`. */
  function Listed(op: nat, sender: nat, size: int, tag: nat): Call {
    Call(op, sender, if op == MPI_SCATTER || op == MPI_BCAST then sender else MPI_NO_VALUE, size, tag)
  }

  /** Where processMPICallRequest() passes a message on. */
  datatype Handled = Enqueued(resumed: bool) | ToBarrierDown | ToBarrierUp | ToGather | Unknown

  datatype Mpi = Mpi(current: Call, last: Call, list: seq<Call>)

  datatype Sync = Sync(mpi: Mpi, matched: Option<Call>)

  /** synchronize(): the specification of the matching step. */
  function Synchronize(m: Mpi): Sync {
    if m.current.op == MPI_NO_VALUE then Sync(m, None)
    else
      var i := FirstFit(SearchKey(m.current), m.list);
      if i == |m.list| then Sync(m, None)
      else
        var last := if m.current.sender == MPI_ANY_SENDER
                    then m.current.(sender := m.list[i].sender) else m.current;
        Sync(Mpi(NO_CALL, last, Without(m.list, i)), Some(m.list[i]))
  }

  /** A message reaches the rank: insertMPICall() and then synchronize(). */
  function Arrive(m: Mpi, c: Call): Sync {
    Synchronize(m.(list := m.list + [c]))
  }

  /** The rank blocks in `c`: mpi_recv(), or the non-root side of a collective. */
  function Post(m: Mpi, c: Call): Sync {
    Synchronize(m.(current := c))
  }

  /** Blocked with nothing to match: the state synchronize() leaves a waiting rank in. */
  predicate Starved(m: Mpi) {
    m.current.op != MPI_NO_VALUE ==>
      forall c :: c in m.list ==> !Fits(SearchKey(m.current), c)
  }

  lemma SynchronizeStarves(m: Mpi)
    ensures Starved(Synchronize(m).mpi)
    ensures var s := Synchronize(m); s.matched.None? ==> s.mpi == m
    ensures var s := Synchronize(m); s.matched.Some? ==>
              && s.matched.value in m.list && Fits(SearchKey(m.current), s.matched.value)
              && s.mpi.current == NO_CALL
              && multiset(s.mpi.list) == multiset(m.list) - multiset{s.matched.value}
  {
    var i := FirstFit(SearchKey(m.current), m.list);
    if m.current.op != MPI_NO_VALUE && i < |m.list| {
      assert m.list == m.list[..i] + [m.list[i]] + m.list[i + 1..];
    }
  }

  /** The matching state of one rank, updated in place as MPI_Base does. */
  class MpiBase {
    var current: Call
    var last: Call
    var callList: seq<Call>

    function View(): Mpi
      reads this
    {
      Mpi(current, last, callList)
    }

    constructor ()
      ensures View() == Mpi(NO_CALL, NO_CALL, [])
    {
      current, last, callList := NO_CALL, NO_CALL, [];
    }

    method SearchMPICall(call: nat, sender: nat, size: int) returns (found: bool, index: nat)
      ensures found <==> exists c :: c in callList && Fits(Key(call, sender, size), c)
      ensures found ==> index < |callList| && Fits(Key(call, sender, size), callList[index])
      ensures found ==> forall j :: 0 <= j < index ==> !Fits(Key(call, sender, size), callList[j])
    {
      found, index := false, 0;
      var it := 0;
      while it < |callList| && !found
        invariant 0 <= it <= |callList|
        invariant !found ==> forall j :: 0 <= j < it ==> !Fits(Key(call, sender, size), callList[j])
        invariant found ==> index < |callList| && Fits(Key(call, sender, size), callList[index])
        invariant found ==> forall j :: 0 <= j < index ==> !Fits(Key(call, sender, size), callList[j])
        decreases |callList| - it, !found
      {
        if sender == MPI_ANY_SENDER {
          if callList[it].op == call && callList[it].size == size {
            found, index := true, it;
          }
        } else {
          if callList[it].op == call && callList[it].sender == sender && callList[it].size == size {
            found, index := true, it;
          }
        }
        it := it + 1;
      }
    }

    method DeleteMPICall(index: nat)
      requires index < |callList|
      modifies this`callList
      ensures callList == Without(old(callList), index)
    {
      callList := callList[..index] + callList[index + 1..];
    }

    method SynchronizeCall() returns (resumed: bool)
      modifies this
      ensures View() == Synchronize(old(View())).mpi
      ensures resumed == Synchronize(old(View())).matched.Some?
    {
      resumed := false;
      var searchCall, searchSender, searchSize := MPI_NO_VALUE, MPI_NO_VALUE, 0;
      if current.op == MPI_NO_VALUE {
        return;
      } else if current.op == MPI_RECV {
        searchCall, searchSender, searchSize := MPI_SEND, current.sender, current.size;
      } else if current.op == MPI_BCAST {
        searchCall, searchSender, searchSize := MPI_BCAST, current.root, current.size;
      } else if current.op == MPI_SCATTER {
        searchCall, searchSender, searchSize := MPI_SCATTER, current.sender, current.size;
      }
      assert Key(searchCall, searchSender, searchSize) == SearchKey(current);
      var found, index := SearchMPICall(searchCall, searchSender, searchSize);
      if found {
        assert index == FirstFit(SearchKey(current), callList);
        if current.sender == MPI_ANY_SENDER {
          current := current.(sender := callList[index].sender);
        }
        last := current;
        current := NO_CALL;
        DeleteMPICall(index);
        resumed := true;
      }
    }

    /** `tag` names the message. */
    method InsertMPICall(op: nat, sourceRank: nat, size: int, tag: nat)
      modifies this`callList
      ensures callList == old(callList) + [Listed(op, sourceRank, size, tag)]
      ensures var c := callList[|callList| - 1];
              && c.op == op && c.sender == sourceRank && c.size == size
              && c.root == if op == MPI_SCATTER || op == MPI_BCAST then sourceRank else MPI_NO_VALUE
    {
      var newCall := Call(op, sourceRank, MPI_NO_VALUE, size, tag);
      if op == MPI_SCATTER || op == MPI_BCAST {
        newCall := newCall.(root := sourceRank);
      }
      callList := callList + [newCall];
    }

    /** The messages of a barrier or a gather go to their own handlers, and an unknown one
        stops the simulation; none of them touches the list. */
    method ProcessMPICallRequest(op: nat, sourceRank: nat, size: int, tag: nat) returns (handled: Handled)
      modifies this
      ensures Listable(op) ==>
                var s := Arrive(old(View()), Listed(op, sourceRank, size, tag));
                View() == s.mpi && handled == Enqueued(s.matched.Some?)
      ensures !Listable(op) ==>
                View() == old(View())
                && handled == (if op == MPI_BARRIER_DOWN then ToBarrierDown
                               else if op == MPI_BARRIER_UP then ToBarrierUp
                               else if op == MPI_GATHER then ToGather else Unknown)
    {
      if op == MPI_SEND || op == MPI_SCATTER || op == MPI_BCAST {
        InsertMPICall(op, sourceRank, size, tag);
        var resumed := SynchronizeCall();
        handled := Enqueued(resumed);
      } else if op == MPI_BARRIER_DOWN {
        handled := ToBarrierDown;
      } else if op == MPI_BARRIER_UP {
        handled := ToBarrierUp;
      } else if op == MPI_GATHER {
        handled := ToGather;
      } else {
        handled := Unknown;
      }
    }

    /** mpi_barrier_up(): the blocked call ends. */
    method MpiBarrierUp()
      modifies this`current
      ensures View() == old(View()).(current := NO_CALL)
    {
      current := NO_CALL;
    }

    method MpiRecv(rankSender: nat, bufferSize: int) returns (resumed: bool)
      modifies this
      ensures View() == Post(old(View()), Call(MPI_RECV, rankSender, MPI_NO_VALUE, bufferSize, 0)).mpi
      ensures resumed == Post(old(View()), Call(MPI_RECV, rankSender, MPI_NO_VALUE, bufferSize, 0)).matched.Some?
    {
      current := Call(MPI_RECV, rankSender, MPI_NO_VALUE, bufferSize, 0);
      resumed := SynchronizeCall();
    }
  }
}
