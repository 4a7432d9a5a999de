/** SMS_MainMemory: a file request is split along memory blocks, and a read is answered
    once the blocks it needs, without the read-ahead, have arrived. */
module MainMemory {
  import opened Arithmetic
  import opened Traces

  /** A sub-request: a piece of a file request, or a memory request passed on whole. */
  datatype Piece = Piece(offset: nat, size: nat, trace: Trace) | Whole(trace: Trace)

  /** A byte range cut along blocks of size b. */
  datatype Range = Range(offset: nat, size: nat, b: nat)
  {
    predicate Valid() { b > 0 }

    function First(): nat
      requires Valid()
    {
      offset / b
    }

    function End(): nat { offset + size }

    predicate Meets(block: nat) {
      block * b < End() && offset < (block + 1) * b
    }

    function BytesInFirstBlock(): nat
      requires Valid()
    {
      if size < b - offset % b then size else b - offset % b
    }

    /** numRequestedBlocks, as the source computes it. */
    function NumRequestedBlocks(): nat
      requires Valid()
    {
      var rest := size - BytesInFirstBlock();
      if rest % b == 0 then rest / b + 1 else rest / b + 2
    }

    /** The part of the range in block First() + i. */
    function Clip(i: nat): (int, int)
      requires Valid()
    {
      var lo, hi := (First() + i) * b, (First() + i + 1) * b;
      (if lo < offset then offset else lo, if End() < hi then End() else hi)
    }
  }

  lemma NextBlock(i: int, b: int)
    ensures (i + 1) * b == i * b + b
  {
  }

  lemma BlocksAdd(i: int, k: int, b: int)
    ensures (i + k) * b == i * b + k * b
  {
  }

  /** Blocks 0 .. n-1 counted from the first one end exactly where the range does. */
  lemma NumIsTouched(r: Range)
    requires r.Valid()
    ensures var n := r.NumRequestedBlocks();
            && n >= 1 && r.First() * r.b <= r.offset < (r.First() + 1) * r.b
            && r.End() <= (r.First() + n) * r.b
            && (r.size > 0 ==> (r.First() + n - 1) * r.b < r.End())
            && (r.size > 0 ==> n == (r.End() - 1) / r.b - r.First() + 1)
  {
    var b, q := r.b, r.First();
    var rest := r.size - r.BytesInFirstBlock();
    var n := r.NumRequestedBlocks();
    Split(b, r.offset);
    Split(b, rest);
    NextBlock(q, b);
    if rest == 0 {
      DivIs(0, b, 0, 0);
      if r.size > 0 { DivIs(r.End() - 1, b, q, r.End() - 1 - q * b); }
    } else {
      var k := rest / b;
      assert r.End() == (q + 1) * b + rest;
      BlocksAdd(q + 1, k, b);
      NextBlock(q + k, b);
      NextBlock(q + k + 1, b);
      if rest % b == 0 {
        DivIs(r.End() - 1, b, q + k, b - 1);
      } else {
        DivIs(r.End() - 1, b, q + 1 + k, rest % b - 1);
      }
    }
  }

  /** The blocks counted are exactly those that meet the range. */
  lemma CountedMeansMeets(r: Range, block: nat)
    requires r.Valid() && r.size > 0
    ensures r.Meets(block) <==> r.First() <= block < r.First() + r.NumRequestedBlocks()
  {
    var q, n := r.First(), r.NumRequestedBlocks();
    NumIsTouched(r);
    if block < q { Gap(block, q, r.b); assert (block + 1) * r.b == block * r.b + r.b; }
    if q < block { Gap(q, block, r.b); NextBlock(q, r.b); NextBlock(block, r.b); }
    if q + n - 1 < block { Gap(q + n - 1, block, r.b); assert (q + n) * r.b == (q + n - 1) * r.b + r.b; }
    if block < q + n - 1 { Gap(block, q + n - 1, r.b); }
    assert (block + 1) * r.b == block * r.b + r.b;
  }

  // ---------------------------------------------------------------- the pieces

  function WritePiece(r: Range, t: Trace, k: nat): (p: Piece)
    requires r.Valid() && HasModule(t) && k < r.NumRequestedBlocks()
    ensures p.Piece?
  {
    NumIsTouched(r);
    ClipIsProper(r, k);
    Piece(r.Clip(k).0, r.Clip(k).1 - r.Clip(k).0, PushRequest(t, k))
  }

  function ReadPiece(r: Range, t: Trace, k: nat): (p: Piece)
    requires r.Valid() && HasModule(t)
    ensures p.Piece?
  {
    Piece((r.First() + k) * r.b, r.b, PushRequest(t, k))
  }

  function WritePieces(r: Range, t: Trace, n: nat): (ps: seq<Piece>)
    requires r.Valid() && HasModule(t) && n <= r.NumRequestedBlocks()
    ensures |ps| == n && forall k :: 0 <= k < n ==> ps[k] == WritePiece(r, t, k)
  {
    seq(n, k requires 0 <= k < n => WritePiece(r, t, k))
  }

  function ReadPieces(r: Range, t: Trace, n: nat): (ps: seq<Piece>)
    requires r.Valid() && HasModule(t)
    ensures |ps| == n && forall k :: 0 <= k < n ==> ps[k] == ReadPiece(r, t, k)
  {
    seq(n, k requires 0 <= k < n => ReadPiece(r, t, k))
  }

  lemma ClipIsProper(r: Range, k: nat)
    requires r.Valid() && k < r.NumRequestedBlocks()
    ensures r.offset <= r.Clip(k).0 <= r.Clip(k).1 <= r.End()
    ensures k == 0 ==> r.Clip(k) == (r.offset, r.offset + r.BytesInFirstBlock())
    ensures k + 1 < r.NumRequestedBlocks() ==> r.Clip(k).1 == (r.First() + k + 1) * r.b == r.Clip(k + 1).0
    ensures k + 1 == r.NumRequestedBlocks() ==> r.Clip(k).1 == r.End()
    ensures r.size > 0 ==> r.Clip(k).0 < r.Clip(k).1
    ensures r.Clip(k).1 - r.Clip(k).0 <= r.b
  {
    var q, n, b := r.First(), r.NumRequestedBlocks(), r.b;
    NumIsTouched(r);
    NextBlock(q + k, b);
    NextBlock(q + n - 1, b);
    NextBlock(q, b);
    Split(b, r.offset);
    if 0 < k { Gap(q, q + k, b); }
    if k + 1 < n { Gap(q + k, q + n - 1, b); NextBlock(q + k + 1, b); }
    if k + 2 < n { Gap(q + k + 1, q + n - 1, b); }
    if r.size == 0 { DivIs(0, b, 0, 0); }
  }

  /** A write is cut into non-empty contiguous pieces that start at the offset, end with
      the range, lie inside one block each, and are as many as the blocks touched. */
  lemma WriteTiles(r: Range, t: Trace, k: nat)
    requires r.Valid() && r.size > 0 && HasModule(t) && k < r.NumRequestedBlocks()
    ensures var n := r.NumRequestedBlocks(); n == (r.End() - 1) / r.b - r.offset / r.b + 1
    ensures WritePiece(r, t, 0).offset == r.offset
    ensures var p := WritePiece(r, t, k);
            && p.size > 0
            && p.offset / r.b == (p.offset + p.size - 1) / r.b == r.First() + k
            && (if k + 1 < r.NumRequestedBlocks() then p.offset + p.size == WritePiece(r, t, k + 1).offset
                else p.offset + p.size == r.End())
  {
    NumIsTouched(r);
    ClipIsProper(r, 0);
    ClipIsProper(r, k);
    var p := WritePiece(r, t, k);
    var q := r.First() + k;
    NextBlock(q, r.b);
    if k > 0 { Gap(r.First(), q, r.b); }
    Split(r.b, r.offset);
    DivIs(p.offset, r.b, q, p.offset - q * r.b);
    DivIs(p.offset + p.size - 1, r.b, q, p.offset + p.size - 1 - q * r.b);
  }

  function Total(ps: seq<Piece>): nat {
    if ps == [] then 0
    else Total(ps[..|ps| - 1]) + match ps[|ps| - 1] case Piece(_, size, _) => size case Whole(_) => 0
  }

  lemma {:induction false} WriteSizesSum(r: Range, t: Trace, n: nat)
    requires r.Valid() && HasModule(t) && 1 <= n <= r.NumRequestedBlocks()
    ensures r.offset + Total(WritePieces(r, t, n)) == r.Clip(n - 1).1
    ensures n == r.NumRequestedBlocks() ==> Total(WritePieces(r, t, n)) == r.size
  {
    var ps := WritePieces(r, t, n);
    ClipIsProper(r, n - 1);
    assert ps[..n - 1] == WritePieces(r, t, n - 1);
    if n > 1 {
      WriteSizesSum(r, t, n - 1);
      ClipIsProper(r, n - 2);
    }
  }

  /** Every piece, of a write or of a read, is recognised as belonging to its request. */
  lemma PiecesFitParent(r: Range, t: Trace, k: nat)
    requires r.Valid() && HasModule(t) && LastModule(t).reqSequence != []
    ensures FitWithParent(ReadPiece(r, t, k).trace, t)
    ensures k < r.NumRequestedBlocks() ==> FitWithParent(WritePiece(r, t, k).trace, t)
    ensures FitWithParent(Whole(PushRequest(t, k)).trace, t)
  {
    PieceFits(PushRequest(t, k), t, k);
  }

  // ---------------------------------------------------------------- arrivals

  /** A request, which of its sub-requests have been answered, and how many answers came. */
  datatype Entry = Entry(parent: nat, replies: seq<bool>, arrived: nat)

  /** arrivesSubRequest(): a second answer to the same sub-request clears the first. */
  function Arrive(e: Entry, index: nat): Entry
    requires index < |e.replies|
  {
    e.(replies := e.replies[index := !e.replies[index]], arrived := (e.arrived + 1) % 0x1_0000_0000)
  }

  predicate Below(arrivals: seq<nat>, n: nat) {
    forall i :: 0 <= i < |arrivals| ==> arrivals[i] < n
  }

  function ArriveAll(e: Entry, arrivals: seq<nat>): (f: Entry)
    requires Below(arrivals, |e.replies|)
    ensures |f.replies| == |e.replies|
  {
    if arrivals == [] then e else Arrive(ArriveAll(e, arrivals[..|arrivals| - 1]), arrivals[|arrivals| - 1])
  }

  /** arrivesRequiredBlocks() on the entry of the request. */
  predicate Required(e: Entry, extraBlocks: nat) {
    forall i :: 0 <= i < |e.replies| - extraBlocks ==> e.replies[i]
  }

  lemma {:induction false} ArrivedOddly(e: Entry, arrivals: seq<nat>, i: nat)
    requires Below(arrivals, |e.replies|) && i < |e.replies| && !e.replies[i]
    ensures ArriveAll(e, arrivals).replies[i] <==> multiset(arrivals)[i] % 2 == 1
  {
    if arrivals != [] {
      var n := |arrivals| - 1;
      ArrivedOddly(e, arrivals[..n], i);
      assert arrivals == arrivals[..n] + [arrivals[n]];
    }
  }

  function Fresh(parent: nat, n: nat): Entry {
    Entry(parent, seq(n, _ => false), 0)
  }

  /** A read can be answered, as arrivesRequiredBlocks() decides with the read-ahead
      count, exactly when each block that meets the requested range has arrived (an odd
      number of times); the read-ahead blocks do not matter. */
  lemma ReadReadyExactly(r: Range, parent: nat, readAhead: nat, arrivals: seq<nat>)
    requires r.Valid() && r.size > 0
    requires Below(arrivals, r.NumRequestedBlocks() + readAhead)
    ensures Required(ArriveAll(Fresh(parent, r.NumRequestedBlocks() + readAhead), arrivals), readAhead)
            <==> forall block: nat :: r.Meets(block) ==>
                   block >= r.First() && multiset(arrivals)[block - r.First()] % 2 == 1
  {
    var n := r.NumRequestedBlocks();
    var e := Fresh(parent, n + readAhead);
    var f := ArriveAll(e, arrivals);
    forall i | 0 <= i < n ensures f.replies[i] <==> multiset(arrivals)[i] % 2 == 1 {
      ArrivedOddly(e, arrivals, i);
    }
    forall block: nat ensures r.Meets(block) <==> r.First() <= block < r.First() + n {
      CountedMeansMeets(r, block);
    }
    if forall block: nat :: r.Meets(block) ==> block >= r.First() && multiset(arrivals)[block - r.First()] % 2 == 1 {
      forall i | 0 <= i < n ensures f.replies[i] {
        assert r.Meets(r.First() + i);
      }
    }
  }

  // ---------------------------------------------------------------- pieces and their answers

  /** A read asks for whole blocks, one behind the other from the first that the range meets. */
  lemma ReadTiles(r: Range, t: Trace, k: nat)
    requires r.Valid() && HasModule(t)
    ensures ReadPiece(r, t, 0).offset <= r.offset < ReadPiece(r, t, 0).offset + r.b
    ensures var p := ReadPiece(r, t, k);
            && p.size == r.b && p.offset % r.b == 0 && p.offset / r.b == r.offset / r.b + k
            && p.offset + p.size == ReadPiece(r, t, k + 1).offset
  {
    var q := r.First() + k;
    Split(r.b, r.offset);
    NextBlock(r.First(), r.b);
    NextBlock(q, r.b);
    DivIs(q * r.b, r.b, q, 0);
  }

  /** The k-th piece of a request carries the trace of the request, with k as one more request. */
  lemma PiecesAreNumbered(r: Range, t: Trace, k: nat)
    requires r.Valid() && HasModule(t)
    ensures Numbered(ReadPiece(r, t, k), t, k) && Numbered(Whole(PushRequest(t, k)), t, k)
    ensures k < r.NumRequestedBlocks() ==> Numbered(WritePiece(r, t, k), t, k)
  {
  }

  predicate Numbered(p: Piece, t: Trace, k: nat)
    requires HasModule(t)
  {
    && HasRequest(p.trace) && LastRequest(p.trace) == k
    && |p.trace| == |t| && p.trace[..|t| - 1] == t[..|t| - 1] && p.trace[|t| - 1].host == t[|t| - 1].host
    && var (ms, ns) := (p.trace[|t| - 1].modules, t[|t| - 1].modules);
    && |ms| == |ns| && ms[..|ns| - 1] == ns[..|ns| - 1]
    && LastModule(p.trace) == Component(LastModule(t).moduleID, LastModule(t).gateID, LastModule(t).reqSequence + [k])
  }

  /** The sub-request that an answer with this trace is for. */
  function IndexOf(t: Trace): int
    requires HasRequest(t)
  {
    AsInt(LastRequest(t))
  }

  predicate Indexed(p: Piece) {
    HasRequest(p.trace) && IndexOf(p.trace) >= 0
  }

  /** The sub-requests marked by the answers to these pieces. */
  function IndicesOf(ps: seq<Piece>): seq<nat>
    requires forall i :: 0 <= i < |ps| ==> Indexed(ps[i])
  {
    seq(|ps|, i requires 0 <= i < |ps| && Indexed(ps[i]) => IndexOf(ps[i].trace) as nat)
  }

  /** How many of the pieces lie in a block. */
  function Covering(ps: seq<Piece>, block: nat, b: nat): nat
    requires b > 0
  {
    if ps == [] then 0
    else
      var p := ps[|ps| - 1];
      Covering(ps[..|ps| - 1], block, b) + if p.Piece? && p.offset / b == block then 1 else 0
  }

  /** Pieces of a read, in the order and as often as their answers come. */
  function PiecesAt(r: Range, t: Trace, ks: seq<nat>): (ps: seq<Piece>)
    requires r.Valid() && HasModule(t)
    ensures |ps| == |ks| && forall i :: 0 <= i < |ks| ==> ps[i] == ReadPiece(r, t, ks[i])
  {
    seq(|ks|, i requires 0 <= i < |ks| => ReadPiece(r, t, ks[i]))
  }

  lemma {:induction false} CoveredAsOften(r: Range, t: Trace, ks: seq<nat>, k: nat)
    requires r.Valid() && HasModule(t)
    ensures Covering(PiecesAt(r, t, ks), r.First() + k, r.b) == multiset(ks)[k]
  {
    if ks != [] {
      var n := |ks| - 1;
      CoveredAsOften(r, t, ks[..n], k);
      ReadTiles(r, t, ks[n]);
      assert PiecesAt(r, t, ks)[..n] == PiecesAt(r, t, ks[..n]);
      assert ks == ks[..n] + [ks[n]];
    }
  }

  lemma IndicesAre(r: Range, t: Trace, ks: seq<nat>)
    requires r.Valid() && HasModule(t) && Below(ks, 0x8000_0000)
    ensures forall i :: 0 <= i < |ks| ==> Indexed(PiecesAt(r, t, ks)[i])
    ensures IndicesOf(PiecesAt(r, t, ks)) == ks
  {
    forall i | 0 <= i < |ks| ensures Indexed(PiecesAt(r, t, ks)[i]) && IndexOf(PiecesAt(r, t, ks)[i].trace) == ks[i] {
      PiecesAreNumbered(r, t, ks[i]);
    }
  }

  /** Answers to any pieces of a read, in any order, mark it as ready exactly when every block
      that meets the requested range is covered by an odd number of the pieces answered. */
  lemma AnswersMakeReadReadyExactly(r: Range, t: Trace, parent: nat, readAhead: nat, ks: seq<nat>)
    requires r.Valid() && r.size > 0 && HasModule(t)
    requires Below(ks, r.NumRequestedBlocks() + readAhead) && r.NumRequestedBlocks() + readAhead <= 0x8000_0000
    ensures forall i :: 0 <= i < |ks| ==> Indexed(PiecesAt(r, t, ks)[i])
    ensures Below(IndicesOf(PiecesAt(r, t, ks)), r.NumRequestedBlocks() + readAhead)
    ensures var e := Fresh(parent, r.NumRequestedBlocks() + readAhead);
            Required(ArriveAll(e, IndicesOf(PiecesAt(r, t, ks))), readAhead)
            <==> forall block: nat :: r.Meets(block) ==> Covering(PiecesAt(r, t, ks), block, r.b) % 2 == 1
  {
    IndicesAre(r, t, ks);
    ReadReadyExactly(r, parent, readAhead, ks);
    forall block: nat | r.Meets(block)
      ensures block >= r.First() && Covering(PiecesAt(r, t, ks), block, r.b) == multiset(ks)[block - r.First()]
    {
      CountedMeansMeets(r, block);
      CoveredAsOften(r, t, ks, block - r.First());
    }
  }

  // ---------------------------------------------------------------- the count of answers

  /** arrivesAllSubRequest() counts answers instead. */
  predicate CountedAll(e: Entry) {
    e.arrived == |e.replies|
  }

  lemma {:induction false} AnswersAreCounted(e: Entry, arrivals: seq<nat>)
    requires Below(arrivals, |e.replies|) && e.arrived < 0x1_0000_0000
    ensures ArriveAll(e, arrivals).arrived == (e.arrived + |arrivals|) % 0x1_0000_0000
  {
    if arrivals != [] { AnswersAreCounted(e, arrivals[..|arrivals| - 1]); }
  }

  predicate NoneTwice(arrivals: seq<nat>) {
    forall i, j :: 0 <= i < j < |arrivals| ==> arrivals[i] != arrivals[j]
  }

  function AsSet(arrivals: seq<nat>): set<nat> {
    set a | a in arrivals
  }

  lemma {:induction false} SetSize(arrivals: seq<nat>)
    ensures |AsSet(arrivals)| <= |arrivals|
    ensures |AsSet(arrivals)| == |arrivals| <==> NoneTwice(arrivals)
    ensures NoneTwice(arrivals) ==> forall a :: a in arrivals ==> multiset(arrivals)[a] == 1
  {
    if arrivals != [] {
      var n := |arrivals| - 1;
      SetSize(arrivals[..n]);
      assert arrivals == arrivals[..n] + [arrivals[n]];
      assert AsSet(arrivals) == AsSet(arrivals[..n]) + {arrivals[n]};
      if arrivals[n] in arrivals[..n] {
        assert AsSet(arrivals) == AsSet(arrivals[..n]);
      }
    }
  }

  lemma {:induction false} Numbers(n: nat) returns (s: set<nat>)
    ensures |s| == n && forall i: nat :: i in s <==> i < n
  {
    s := {};
    if n > 0 {
      s := Numbers(n - 1);
      s := s + {n - 1};
    }
  }

  lemma AllSeenExactly(arrivals: seq<nat>, n: nat)
    requires Below(arrivals, n) && |arrivals| == n
    ensures (forall i: nat :: i < n ==> i in arrivals) <==> NoneTwice(arrivals)
  {
    var numbers := Numbers(n);
    SetSize(arrivals);
    assert AsSet(arrivals) <= numbers;
    assert |numbers - AsSet(arrivals)| == n - |AsSet(arrivals)|;
    assert numbers - AsSet(arrivals) == {} <==> forall i: nat :: i < n ==> i in arrivals by {
      assert forall i: nat :: i in numbers - AsSet(arrivals) <==> i < n && i !in arrivals;
    }
  }

  lemma RequiredMeansOdd(parent: nat, n: nat, arrivals: seq<nat>)
    requires Below(arrivals, n)
    ensures Required(ArriveAll(Fresh(parent, n), arrivals), 0)
            <==> forall i: nat :: i < n ==> multiset(arrivals)[i] % 2 == 1
  {
    var e := ArriveAll(Fresh(parent, n), arrivals);
    forall i: nat | i < n ensures e.replies[i] <==> multiset(arrivals)[i] % 2 == 1 {
      ArrivedOddly(Fresh(parent, n), arrivals, i);
    }
  }

  /** n numbers below n are each there an odd number of times exactly if none is there twice. */
  lemma OddMeansOnce(arrivals: seq<nat>, n: nat)
    requires Below(arrivals, n) && |arrivals| == n
    ensures (forall i: nat :: i < n ==> multiset(arrivals)[i] % 2 == 1) <==> NoneTwice(arrivals)
  {
    AllSeenExactly(arrivals, n);
    SetSize(arrivals);
    if forall i: nat :: i < n ==> multiset(arrivals)[i] % 2 == 1 {
      forall i: nat | i < n ensures i in arrivals {
        assert multiset(arrivals)[i] > 0;
      }
    }
  }

  /** When the count says that all sub-requests have arrived, they have exactly if none of
      them arrived twice. */
  lemma CountIsRightExactly(parent: nat, n: nat, arrivals: seq<nat>)
    requires n < 0x1_0000_0000 && Below(arrivals, n) && |arrivals| < 0x1_0000_0000
    ensures var e := ArriveAll(Fresh(parent, n), arrivals);
            && (CountedAll(e) <==> |arrivals| == n)
            && (CountedAll(e) ==> (Required(e, 0) <==> NoneTwice(arrivals)))
  {
    AnswersAreCounted(Fresh(parent, n), arrivals);
    if |arrivals| == n {
      RequiredMeansOdd(parent, n, arrivals);
      OddMeansOnce(arrivals, n);
    }
  }

  // ---------------------------------------------------------------- the width of an int

  /** The last byte any sub-request of a read or a write reaches. */
  function Reach(r: Range, readAhead: nat): nat
    requires r.Valid()
  {
    (r.First() + r.NumRequestedBlocks() + readAhead) * r.b
  }

  /** Where the end of the last block, read-ahead included, fits in an int, so do all numbers
      that splitRequest() computes: offsets, sizes, ends and the number of blocks. */
  lemma NothingOverflows(r: Range, t: Trace, readAhead: nat, k: nat)
    requires r.Valid() && HasModule(t) && k < r.NumRequestedBlocks() + readAhead
    ensures r.NumRequestedBlocks() + readAhead <= Reach(r, readAhead) && r.End() <= Reach(r, readAhead)
    ensures var p := ReadPiece(r, t, k); p.offset + p.size <= Reach(r, readAhead)
    ensures k < r.NumRequestedBlocks() ==> var p := WritePiece(r, t, k); p.offset + p.size <= Reach(r, readAhead)
  {
    var n := r.NumRequestedBlocks();
    var all := r.First() + n + readAhead;
    NumIsTouched(r);
    BlocksAdd(r.First() + n, readAhead, r.b);
    BlocksAdd(r.First() + k + 1, all - (r.First() + k + 1), r.b);
    NextBlock(r.First() + k, r.b);
    AtLeast(readAhead, r.b);
    AtLeast(all - (r.First() + k + 1), r.b);
    AtLeast(all, r.b);
    if k < n { ClipIsProper(r, k); }
  }

  lemma AtLeast(i: nat, b: nat)
    requires b > 0
    ensures i * b >= i
  {
  }

  /** Entry i is the first one of this request. */
  predicate IsFirst(es: seq<Entry>, i: int, parent: nat) {
    0 <= i < |es| && es[i].parent == parent && forall j :: 0 <= j < i ==> es[j].parent != parent
  }

  // ---------------------------------------------------------------- the object

  /** A file request that reads or does anything else, a memory request, or neither. */
  datatype MessageKind = ReadFile | OtherFile | Memory | OtherMessage

  class SmsMainMemory {
    const readAheadBlocks: nat
    const memoryBlockSize: nat
    var requestVector: seq<Entry>
    var subRequests: seq<Piece>

    constructor (readAhead: nat, blockSize: nat)
      ensures readAheadBlocks == readAhead && memoryBlockSize == blockSize && requestVector == [] && subRequests == []
    {
      readAheadBlocks, memoryBlockSize, requestVector, subRequests := readAhead, blockSize, [], [];
    }

    method AddRequest(parent: nat, numSubRequests: nat)
      modifies this`requestVector
      ensures requestVector == old(requestVector) + [Fresh(parent, numSubRequests)]
    {
      var replies: seq<bool> := [];
      var i := 0;
      while i < numSubRequests
        invariant 0 <= i <= numSubRequests && replies == seq(i, _ => false)
      {
        replies := replies + [false];
        i := i + 1;
      }
      requestVector := requestVector + [Entry(parent, replies, 0)];
    }

    /** Any other message ends the program; so `ok` is false and nothing is changed. */
    method SplitRequest(parent: nat, kind: MessageKind, offset: nat, requestSize: nat, trace: Trace) returns (ok: bool)
      requires memoryBlockSize > 0 && HasModule(trace)
      modifies this
      ensures ok == !kind.OtherMessage?
      ensures kind.ReadFile? || kind.OtherFile? ==>
                var r := Range(offset, requestSize, memoryBlockSize);
                var n := r.NumRequestedBlocks() + if kind.ReadFile? then readAheadBlocks else 0;
                && requestVector == old(requestVector) + [Fresh(parent, n)]
                && subRequests == old(subRequests)
                                  + if kind.ReadFile? then ReadPieces(r, trace, n) else WritePieces(r, trace, n)
      ensures kind.Memory? ==>
                && requestVector == old(requestVector) + [Fresh(parent, 1)]
                && subRequests == old(subRequests) + [Whole(PushRequest(trace, 0))]
      ensures kind.OtherMessage? ==> requestVector == old(requestVector) && subRequests == old(subRequests)
    {
      ok := true;
      if kind.ReadFile? || kind.OtherFile? {
        SplitFileRequest(parent, kind.ReadFile?, offset, requestSize, trace);
      } else if kind.Memory? {
        AddRequest(parent, 1);
        subRequests := subRequests + [Whole(PushRequest(trace, 0))];
      } else {
        ok := false;
      }
    }

    /** `read` is SM_READ_FILE; all else is cut as a write. */
    method SplitFileRequest(parent: nat, read: bool, offset: nat, requestSize: nat, trace: Trace)
      requires memoryBlockSize > 0 && HasModule(trace)
      modifies this
      ensures var r := Range(offset, requestSize, memoryBlockSize);
              var n := r.NumRequestedBlocks() + if read then readAheadBlocks else 0;
              && requestVector == old(requestVector) + [Fresh(parent, n)]
              && subRequests == old(subRequests) + if read then ReadPieces(r, trace, n) else WritePieces(r, trace, n)
    {
      ghost var r := Range(offset, requestSize, memoryBlockSize);
      var bytesInFirstBlock := if requestSize < memoryBlockSize - offset % memoryBlockSize then requestSize
                               else memoryBlockSize - offset % memoryBlockSize;
      var rest := requestSize - bytesInFirstBlock;
      var numRequestedBlocks := if rest % memoryBlockSize == 0 then rest / memoryBlockSize + 1
                                else rest / memoryBlockSize + 2;
      assert numRequestedBlocks == r.NumRequestedBlocks();
      if read {
        numRequestedBlocks := numRequestedBlocks + readAheadBlocks;
        AddRequest(parent, numRequestedBlocks);
        SplitRead(offset / memoryBlockSize, numRequestedBlocks, trace, r);
      } else {
        AddRequest(parent, numRequestedBlocks);
        SplitWrite(offset, requestSize, bytesInFirstBlock, numRequestedBlocks, trace, r);
      }
    }

    method SplitRead(firstRequestBlock: nat, numRequestedBlocks: nat, trace: Trace, ghost r: Range)
      requires r.Valid() && r.b == memoryBlockSize && HasModule(trace) && firstRequestBlock == r.First()
      modifies this`subRequests
      ensures subRequests == old(subRequests) + ReadPieces(r, trace, numRequestedBlocks)
    {
      var currentOffset := firstRequestBlock * memoryBlockSize;
      var currentSubRequest := 0;
      while currentSubRequest < numRequestedBlocks
        invariant 0 <= currentSubRequest <= numRequestedBlocks
        invariant currentOffset == (r.First() + currentSubRequest) * r.b
        invariant subRequests == old(subRequests) + ReadPieces(r, trace, currentSubRequest)
      {
        NextBlock(r.First() + currentSubRequest, r.b);
        subRequests := subRequests + [Piece(currentOffset, memoryBlockSize, PushRequest(trace, currentSubRequest))];
        assert ReadPieces(r, trace, currentSubRequest + 1)
            == ReadPieces(r, trace, currentSubRequest) + [ReadPiece(r, trace, currentSubRequest)];
        currentOffset := currentOffset + memoryBlockSize;
        currentSubRequest := currentSubRequest + 1;
      }
    }

    method SplitWrite(offset: nat, requestSize: nat, bytesInFirstBlock: nat, numRequestedBlocks: nat,
                      trace: Trace, ghost r: Range)
      requires r == Range(offset, requestSize, memoryBlockSize) && r.Valid() && HasModule(trace)
      requires bytesInFirstBlock == r.BytesInFirstBlock() && numRequestedBlocks == r.NumRequestedBlocks()
      modifies this`subRequests
      ensures subRequests == old(subRequests) + WritePieces(r, trace, numRequestedBlocks)
    {
      NumIsTouched(r);
      ClipIsProper(r, 0);
      subRequests := subRequests + [Piece(offset, bytesInFirstBlock, PushRequest(trace, 0))];
      assert WritePieces(r, trace, 1) == [WritePiece(r, trace, 0)];
      var currentOffset := offset + bytesInFirstBlock;
      var currentSubRequest := 1;
      while currentSubRequest < numRequestedBlocks
        invariant 1 <= currentSubRequest <= numRequestedBlocks
        invariant currentOffset == r.Clip(currentSubRequest - 1).1
        invariant subRequests == old(subRequests) + WritePieces(r, trace, currentSubRequest)
      {
        ClipIsProper(r, currentSubRequest - 1);
        ClipIsProper(r, currentSubRequest);
        NextBlock(r.First() + currentSubRequest, r.b);
        var currentSize := if offset + requestSize - currentOffset >= memoryBlockSize then memoryBlockSize
                           else offset + requestSize - currentOffset;
        subRequests := subRequests + [Piece(currentOffset, currentSize, PushRequest(trace, currentSubRequest))];
        assert WritePieces(r, trace, currentSubRequest + 1)
            == WritePieces(r, trace, currentSubRequest) + [WritePiece(r, trace, currentSubRequest)];
        currentOffset := currentOffset + currentSize;
        currentSubRequest := currentSubRequest + 1;
      }
    }

    method PopSubRequest() returns (found: bool, piece: Piece)
      modifies this`subRequests
      ensures found == (old(subRequests) != [])
      ensures found ==> old(subRequests) == [piece] + subRequests
      ensures !found ==> subRequests == old(subRequests)
    {
      if subRequests == [] {
        found, piece := false, Piece(0, 0, []);
      } else {
        found, piece := true, subRequests[0];
        subRequests := subRequests[1..];
      }
    }

    /** searchRequest(): -1 stands for NOT_FOUND. */
    method SearchRequest(request: nat) returns (index: int)
      ensures -1 <= index < |requestVector|
      ensures index >= 0 ==> requestVector[index].parent == request
      ensures index >= 0 ==> forall i :: 0 <= i < index ==> requestVector[i].parent != request
      ensures index < 0 ==> forall i :: 0 <= i < |requestVector| ==> requestVector[i].parent != request
    {
      index := 0;
      while index < |requestVector|
        invariant 0 <= index <= |requestVector|
        invariant forall i :: 0 <= i < index ==> requestVector[i].parent != request
      {
        if requestVector[index].parent == request {
          return;
        }
        index := index + 1;
      }
      index := -1;
    }

    /** The answer says by its trace which sub-request it is for. False where the source throws:
        no such request, or no such sub-request. */
    method ArrivesSubRequest(parent: nat, trace: Trace) returns (ok: bool)
      requires HasRequest(trace)
      modifies this`requestVector
      ensures ok <==> exists i :: IsFirst(old(requestVector), i, parent)
                                  && 0 <= IndexOf(trace) < |old(requestVector)[i].replies|
      ensures !ok ==> requestVector == old(requestVector)
      ensures ok ==> exists i :: IsFirst(old(requestVector), i, parent)
                       && 0 <= IndexOf(trace) < |old(requestVector)[i].replies|
                       && requestVector == old(requestVector)[i := Arrive(old(requestVector)[i], IndexOf(trace))]
    {
      var i := SearchRequest(parent);
      var index := IndexOf(trace);
      if i >= 0 && 0 <= index < |requestVector[i].replies| {
        assert IsFirst(requestVector, i, parent);
        ok := true;
        requestVector := requestVector[i := Arrive(requestVector[i], index)];
      } else {
        ok := false;
      }
    }

    /** False where the source throws: no such request. */
    method ArrivesAllSubRequest(request: nat) returns (found: bool, all: bool)
      ensures found <==> exists i :: 0 <= i < |requestVector| && requestVector[i].parent == request
      ensures found ==> exists i :: 0 <= i < |requestVector| && requestVector[i].parent == request
                          && (forall j :: 0 <= j < i ==> requestVector[j].parent != request)
                          && all == CountedAll(requestVector[i])
    {
      var i := SearchRequest(request);
      found, all := i >= 0, false;
      if found {
        all := requestVector[i].arrived == |requestVector[i].replies|;
      }
    }

    method ArrivesRequiredBlocks(request: nat, extraBlocks: nat) returns (allArrived: bool)
      ensures allArrived <==> exists i :: 0 <= i < |requestVector| && requestVector[i].parent == request
                                && (forall j :: 0 <= j < i ==> requestVector[j].parent != request)
                                && Required(requestVector[i], extraBlocks)
    {
      var parentIndex := SearchRequest(request);
      allArrived := true;
      var subIndex := 0;
      if parentIndex >= 0 {
        var replies := requestVector[parentIndex].replies;
        while subIndex < |replies| - extraBlocks && allArrived
          invariant 0 <= subIndex
          invariant forall k :: 0 <= k < subIndex ==> k < |replies| && replies[k]
          invariant !allArrived ==> subIndex < |replies| - extraBlocks && !replies[subIndex]
          decreases |replies| - subIndex, allArrived
        {
          if !replies[subIndex] {
            allArrived := false;
          } else {
            subIndex := subIndex + 1;
          }
        }
        assert allArrived <==> Required(requestVector[parentIndex], extraBlocks);
      } else {
        allArrived := false;
      }
    }
  }
}
