/** One process of ApplicationHPC: the master (rank 0 of its group) or a worker.
    Ranks are relative to the group; module Connections relates them to real ranks. */
module Hpc {
  import opened Matching

  const UINT_MAX: nat := 0xFFFF_FFFF
  const METADATA_MSG_SIZE: nat := 64
  const KB: nat := 1024

  datatype Config = Config(
    workersSet: nat,
    numIterations: nat,
    sliceToWorkersKB: nat,
    sliceToMasterKB: nat,
    workersRead: bool,
    workersWrite: bool)
  {
    /** The parameters are unsigned ints; the counter must be able to pass numIterations. */
    predicate Valid() {
      && 2 <= workersSet <= UINT_MAX
      && numIterations < UINT_MAX
    }

    /** startExecution() sets currentIteration to 1 and nextIteration() tests after
        the increment, so one iteration runs even when none was asked for. */
    function Rounds(): nat {
      if numIterations == 0 then 1 else numIterations
    }

    function DataSize(): int {
      if workersRead then METADATA_MSG_SIZE else AsInt(sliceToWorkersKB * KB)
    }

    function ResultSize(): int {
      if workersWrite then METADATA_MSG_SIZE else AsInt(sliceToMasterKB * KB)
    }
  }

  /** An unsigned product stored in a 32-bit int. */
  function AsInt(n: nat): int {
    var u := n % (UINT_MAX + 1);
    if u < 0x8000_0000 then u else u - (UINT_MAX + 1)
  }

  function Dec(u: nat): nat {
    if u == 0 then UINT_MAX else u - 1
  }

  function Inc(u: nat): nat {
    if u == UINT_MAX then 0 else u + 1
  }

  /** currentState. */
  datatype Phase =
    | Init
    | MasterReading | MasterDelivering | MasterWaiting | MasterWriting
    | WorkerReceiving | WorkerReading | WorkerAllocating | WorkerProcessing
    | WorkerWriting | WorkerSendingBack

  datatype IoOp = Create | Read | Write

  /** What the process waits for between two calls of calculateNextState(). */
  datatype Waiting =
    | NotStarted
    | Ready
    | OnIo(op: IoOp)
    | OnMem
    | OnCpu
    | OnRecv
    | Finished
    | Halted  // an exception, or a state that no branch handles

  /** A message between two ranks; `iter` is the sender's iteration and no rule reads it. */
  datatype Msg = Msg(src: nat, dst: nat, size: int, iter: nat)

  /** The requests to the operating system that have been answered, by kind. */
  datatype Served = Served(files: nat, fetched: nat, written: nat, memory: nat, computed: nat)

  const NOTHING_SERVED: Served := Served(0, 0, 0, 0, 0)

  /** `phase` .. `mpi` are the fields of the source; the rest records what happened: answers
      received, messages sent, and calls matched in this iteration and in those before. */
  datatype Rank = Rank(
    phase: Phase,
    totalResponses: nat,
    iteration: nat,
    created: bool,
    waiting: Waiting,
    mpi: Mpi,
    served: Served,
    messages: nat,
    received: seq<Call>,
    history: seq<seq<Call>>)

  datatype Effect = Effect(rank: Rank, sent: seq<Msg>)

  function RecvCall(sender: nat, size: int): Call {
    Call(MPI_RECV, sender, MPI_NO_VALUE, size, 0)
  }

  function AsCall(m: Msg): Call {
    Call(MPI_SEND, m.src, MPI_NO_VALUE, m.size, m.iter)
  }

  function Matched(r: Rank, s: Sync): Rank {
    if s.matched.Some?
    then r.(mpi := s.mpi, waiting := Ready, received := r.received + [s.matched.value])
    else r.(mpi := s.mpi)
  }

  function PostRecv(r: Rank, sender: nat, size: int): Rank {
    Matched(r.(waiting := OnRecv), Post(r.mpi, RecvCall(sender, size)))
  }

  /** A message of another rank reaches this one. */
  function Receive(r: Rank, m: Msg): Rank {
    Matched(r, Arrive(r.mpi, AsCall(m)))
  }

  function Data(cfg: Config, dst: nat, iter: nat): Msg {
    Msg(0, dst, cfg.DataSize(), iter)
  }

  function Result(cfg: Config, src: nat, iter: nat): Msg {
    Msg(src, 0, cfg.ResultSize(), iter)
  }

  /** The messages deliverData() sends to ranks 1 .. n-1. */
  function DataRound(cfg: Config, n: nat, iter: nat): seq<Msg> {
    if n <= 1 then [] else DataRound(cfg, n - 1, iter) + [Data(cfg, n - 1, iter)]
  }

  function MasterReads(cfg: Config, r: Rank): Rank {
    if !cfg.workersRead then r.(waiting := OnIo(Read))
    else r.(totalResponses := 0)
  }

  function MasterWrites(cfg: Config, r: Rank): Rank {
    if !cfg.workersWrite then r.(waiting := OnIo(Write))
    else r.(totalResponses := 0)
  }

  function NextIteration(cfg: Config, r: Rank): Rank {
    var i := Inc(r.iteration);
    r.(phase := Init, iteration := i, received := [], history := r.history + [r.received],
       waiting := if i > cfg.numIterations then Finished else Ready)
  }

  function MasterNext(cfg: Config, r: Rank): Effect {
    match r.phase
    case Init =>
      if !r.created && !cfg.workersWrite
      then Effect(r.(totalResponses := 1, created := true, waiting := OnIo(Create)), [])
      else Effect(MasterReads(cfg, r.(phase := MasterReading, totalResponses := cfg.workersSet)), [])
    case MasterReading =>
      if r.totalResponses > 0 then Effect(MasterReads(cfg, r), [])
      else Effect(r.(phase := MasterDelivering,
                     mpi := if cfg.workersSet > 1 then r.mpi.(current := NO_CALL) else r.mpi),
                  DataRound(cfg, cfg.workersSet, r.iteration))
    case MasterDelivering =>
      var r' := r.(phase := MasterWaiting, totalResponses := Dec(cfg.workersSet));
      Effect(PostRecv(r', MPI_ANY_SENDER, cfg.ResultSize()), [])
    case MasterWaiting =>
      var t := Dec(r.totalResponses);
      if t == 0 then Effect(MasterWrites(cfg, r.(phase := MasterWriting, totalResponses := cfg.workersSet)), [])
      else Effect(PostRecv(r.(totalResponses := t), MPI_ANY_SENDER, cfg.ResultSize()), [])
    case MasterWriting =>
      if r.totalResponses > 0 then Effect(MasterWrites(cfg, r), [])
      else Effect(NextIteration(cfg, r), [])
    case _ => Effect(r.(waiting := Halted), [])
  }

  function WorkerNext(cfg: Config, me: nat, r: Rank): Effect {
    match r.phase
    case Init =>
      if !r.created && cfg.workersWrite
      then Effect(r.(totalResponses := 1, created := true, waiting := OnIo(Create)), [])
      else Effect(PostRecv(r.(phase := WorkerReceiving), 0, cfg.DataSize()), [])
    case WorkerReceiving =>
      var r' := r.(phase := WorkerReading);
      Effect(if cfg.workersRead then r'.(totalResponses := 1, waiting := OnIo(Read))
             else r'.(totalResponses := 0), [])
    case WorkerReading => Effect(r.(phase := WorkerAllocating, waiting := OnMem), [])
    case WorkerAllocating => Effect(r.(phase := WorkerProcessing, waiting := OnCpu), [])
    case WorkerProcessing =>
      var r' := r.(phase := WorkerWriting);
      Effect(if cfg.workersWrite then r'.(totalResponses := 1, waiting := OnIo(Write))
             else r'.(totalResponses := 0), [])
    case WorkerWriting =>
      Effect(r.(phase := WorkerSendingBack, mpi := r.mpi.(current := NO_CALL)), [Result(cfg, me, r.iteration)])
    case WorkerSendingBack => Effect(NextIteration(cfg, r), [])
    case _ => Effect(r.(waiting := Halted), [])
  }

  /** calculateNextState() up to its next tail call or blocking request. A tail call
      leaves the rank Ready, so that other ranks may move in between. */
  function NextState(cfg: Config, me: nat, r: Rank): Effect
    requires r.waiting.Ready?
  {
    var e := if me == 0 then MasterNext(cfg, r) else WorkerNext(cfg, me, r);
    e.(rank := e.rank.(messages := r.messages + |e.sent|))
  }

  /** processIOCallResponse() checks the state the response is for. */
  predicate ReplyExpected(phase: Phase, op: IoOp) {
    match op
    case Read => phase.MasterReading? || phase.WorkerReading?
    case Write => phase.MasterWriting? || phase.WorkerWriting?
    case Create => true
  }

  function Serve(s: Served, w: Waiting): Served {
    match w
    case OnIo(Create) => s.(files := s.files + 1)
    case OnIo(Read) => s.(fetched := s.fetched + 1)
    case OnIo(Write) => s.(written := s.written + 1)
    case OnMem => s.(memory := s.memory + 1)
    case OnCpu => s.(computed := s.computed + 1)
    case _ => s
  }

  /** The operating system answers; `ok` is icancloud_OK. */
  function Reply(r: Rank, ok: bool): Rank
    requires r.waiting.OnIo? || r.waiting.OnMem? || r.waiting.OnCpu?
  {
    match r.waiting
    case OnIo(op) =>
      if ReplyExpected(r.phase, op) && ok
      then r.(totalResponses := Dec(r.totalResponses), waiting := Ready, served := Serve(r.served, r.waiting))
      else r.(waiting := Halted)
    case _ => r.(waiting := Ready, served := Serve(r.served, r.waiting))
  }

  /** ApplicationHPC itself: fields updated in place, one method per source function. */
  class ApplicationHPC {
    const cfg: Config
    const myRank: nat
    const mpi: MpiBase
    var currentState: Phase
    var totalResponses: nat
    var currentIteration: nat
    var createdResultsFile: bool
    var waiting: Waiting
    ghost var served: Served
    ghost var messages: nat
    ghost var received: seq<Call>
    ghost var history: seq<seq<Call>>

    ghost function View(): Rank
      reads this, mpi
    {
      Rank(currentState, totalResponses, currentIteration, createdResultsFile, waiting, mpi.View(),
           served, messages, received, history)
    }

    constructor (cfg: Config, myRank: nat, garbage: nat)
      ensures this.cfg == cfg && this.myRank == myRank && fresh(mpi)
      ensures View() == Rank(Init, garbage, 1, false, NotStarted, Mpi(NO_CALL, NO_CALL, []), NOTHING_SERVED, 0, [], [])
    {
      this.cfg, this.myRank := cfg, myRank;
      mpi := new MpiBase();
      currentState, totalResponses, currentIteration, createdResultsFile := Init, garbage, 1, false;
      waiting := NotStarted;
      served, messages, received, history := NOTHING_SERVED, 0, [], [];
    }

    /** continueExecution() after a matched call; `matched` is that call. */
    method ContinueExecution(ghost matched: Call)
      modifies this`waiting, this`received
      ensures waiting == Ready && received == old(received) + [matched]
    {
      waiting := Ready;
      received := received + [matched];
    }

    method MpiRecv(sender: nat, size: int)
      modifies this, mpi
      ensures View() == PostRecv(old(View()), sender, size)
    {
      ghost var s := Post(mpi.View(), RecvCall(sender, size));
      waiting := OnRecv;
      var resumed := mpi.MpiRecv(sender, size);
      if resumed {
        ContinueExecution(s.matched.value);
      }
    }

    /** processRequestMessage() for the MPI_SEND of another rank. */
    method ProcessMpiMessage(m: Msg)
      modifies this, mpi
      ensures View() == Receive(old(View()), m)
    {
      ghost var s := Arrive(mpi.View(), AsCall(m));
      var handled := mpi.ProcessMPICallRequest(MPI_SEND, m.src, m.size, m.iter);
      if handled.resumed {
        ContinueExecution(s.matched.value);
      }
    }

    method MpiSend(receiver: nat, size: int) returns (m: Msg)
      modifies mpi
      ensures m == Msg(myRank, receiver, size, currentIteration)
      ensures mpi.View() == old(mpi.View()).(current := NO_CALL)
    {
      m := Msg(myRank, receiver, size, currentIteration);
      mpi.current := NO_CALL;
    }

    method ReadInputData()
      requires waiting == Ready
      modifies this
      ensures View() == MasterReads(cfg, old(View()))
    {
      if !cfg.workersRead {
        waiting := OnIo(Read);
      } else {
        totalResponses := 0;
      }
    }

    method WrittingData()
      requires waiting == Ready
      modifies this
      ensures View() == MasterWrites(cfg, old(View()))
    {
      if !cfg.workersWrite {
        waiting := OnIo(Write);
      } else {
        totalResponses := 0;
      }
    }

    method NextIterationStep()
      modifies this
      ensures View() == NextIteration(cfg, old(View()))
    {
      currentState := Init;
      currentIteration := Inc(currentIteration);
      history := history + [received];
      received := [];
      waiting := if currentIteration > cfg.numIterations then Finished else Ready;
    }

    method DeliverData() returns (sent: seq<Msg>)
      requires myRank == 0
      modifies mpi
      ensures sent == DataRound(cfg, cfg.workersSet, currentIteration)
      ensures mpi.View() == if cfg.workersSet > 1 then old(mpi.View()).(current := NO_CALL) else old(mpi.View())
    {
      var dataSize := cfg.DataSize();
      sent := [];
      var i := 1;
      while i < cfg.workersSet
        invariant 1 <= i && (i == 1 || i <= cfg.workersSet)
        invariant sent == DataRound(cfg, i, currentIteration)
        invariant mpi.View() == if i > 1 then old(mpi.View()).(current := NO_CALL) else old(mpi.View())
      {
        var m := MpiSend(i, dataSize);
        sent := sent + [m];
        i := i + 1;
      }
    }

    method CalculateNextState() returns (sent: seq<Msg>)
      requires waiting == Ready
      modifies this, mpi
      ensures Effect(View(), sent) == NextState(cfg, myRank, old(View()))
    {
      sent := [];
      if myRank == 0 {
        sent := CalculateMaster();
      } else {
        sent := CalculateWorker();
      }
      messages := messages + |sent|;
    }

    method CalculateMaster() returns (sent: seq<Msg>)
      requires waiting == Ready && myRank == 0
      modifies this, mpi
      ensures Effect(View(), sent) == MasterNext(cfg, old(View()))
    {
      sent := [];
      if currentState == Init {
        if !createdResultsFile && !cfg.workersWrite {
          totalResponses := 1;
          createdResultsFile := true;
          waiting := OnIo(Create);
        } else {
          currentState := MasterReading;
          totalResponses := cfg.workersSet;
          ReadInputData();
        }
      } else if currentState == MasterReading {
        if totalResponses > 0 {
          ReadInputData();
        } else {
          currentState := MasterDelivering;
          sent := DeliverData();
        }
      } else if currentState == MasterDelivering {
        currentState := MasterWaiting;
        totalResponses := Dec(cfg.workersSet);
        MpiRecv(MPI_ANY_SENDER, cfg.ResultSize());
      } else if currentState == MasterWaiting {
        totalResponses := Dec(totalResponses);
        if totalResponses == 0 {
          currentState := MasterWriting;
          totalResponses := cfg.workersSet;
          WrittingData();
        } else {
          MpiRecv(MPI_ANY_SENDER, cfg.ResultSize());
        }
      } else if currentState == MasterWriting {
        if totalResponses > 0 {
          WrittingData();
        } else {
          NextIterationStep();
        }
      } else {
        waiting := Halted;
      }
    }

    method CalculateWorker() returns (sent: seq<Msg>)
      requires waiting == Ready && myRank != 0
      modifies this, mpi
      ensures Effect(View(), sent) == WorkerNext(cfg, myRank, old(View()))
    {
      sent := [];
      if currentState == Init {
        if !createdResultsFile && cfg.workersWrite {
          totalResponses := 1;
          createdResultsFile := true;
          waiting := OnIo(Create);
        } else {
          currentState := WorkerReceiving;
          MpiRecv(0, cfg.DataSize());
        }
      } else if currentState == WorkerReceiving {
        currentState := WorkerReading;
        if cfg.workersRead {
          totalResponses := 1;
          waiting := OnIo(Read);
        } else {
          totalResponses := 0;
        }
      } else if currentState == WorkerReading {
        currentState := WorkerAllocating;
        waiting := OnMem;
      } else if currentState == WorkerAllocating {
        currentState := WorkerProcessing;
        waiting := OnCpu;
      } else if currentState == WorkerProcessing {
        currentState := WorkerWriting;
        if cfg.workersWrite {
          totalResponses := 1;
          waiting := OnIo(Write);
        } else {
          totalResponses := 0;
        }
      } else if currentState == WorkerWriting {
        currentState := WorkerSendingBack;
        var m := MpiSend(0, cfg.ResultSize());
        sent := [m];
      } else if currentState == WorkerSendingBack {
        NextIterationStep();
      } else {
        waiting := Halted;
      }
    }

    method ProcessResponse(ok: bool)
      requires waiting.OnIo? || waiting.OnMem? || waiting.OnCpu?
      modifies this
      ensures View() == Reply(old(View()), ok)
    {
      if waiting.OnIo? {
        if ReplyExpected(currentState, waiting.op) && ok {
          served := Serve(served, waiting);
          totalResponses := Dec(totalResponses);
          waiting := Ready;
        } else {
          waiting := Halted;
        }
      } else {
        served := Serve(served, waiting);
        waiting := Ready;
      }
    }
  }
}
