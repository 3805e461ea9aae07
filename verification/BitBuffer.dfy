/** A queue of single bits packed into a circular byte buffer. Storing only ever sets bits, so
    every bit outside the queue must already be clear; fetching a bit clears it. */
module BitBuffer {
  import opened Circular

  // ---- bits of a byte --------------------------------------------------------------------

  function Mask(b: nat): bv8
    requires b < 8
  {
    if b == 0 then 0x01 else if b == 1 then 0x02 else if b == 2 then 0x04 else if b == 3 then 0x08
    else if b == 4 then 0x10 else if b == 5 then 0x20 else if b == 6 then 0x40 else 0x80
  }

  predicate Bit(x: bv8, b: nat)
    requires b < 8
  {
    x & Mask(b) != 0
  }

  lemma MaskShift(b: nat)
    requires b < 8
    ensures Mask(b) == 0x80 <==> b == 7
    ensures b < 7 ==> Mask(b) << 1 == Mask(b + 1)
  {
  }

  lemma SetOneBit(x: bv8, b: nat, c: nat)
    requires b < 8 && c < 8
    ensures Bit(x | Mask(b), c) == (Bit(x, c) || b == c)
  {
    MasksDiffer(b, c);
    if b == c {
      OrSame(x, Mask(b));
    } else {
      OrOther(x, Mask(b), Mask(c));
    }
  }

  lemma MasksDiffer(b: nat, c: nat)
    requires b < 8 && c < 8
    ensures Mask(b) != 0 && Mask(b) & Mask(c) == if b == c then Mask(c) else 0
  {
  }

  lemma OrSame(x: bv8, m: bv8)
    ensures (x | m) & m == m
  {
  }

  lemma OrOther(x: bv8, m: bv8, n: bv8)
    requires m & n == 0
    ensures (x | m) & n == x & n
  {
  }

  lemma ClearOneBit(x: bv8, b: nat, c: nat)
    requires b < 8 && c < 8
    ensures Bit(x & !Mask(b), c) == (Bit(x, c) && b != c)
  {
    MasksDiffer(b, c);
    if b == c {
      AndNotSame(x, Mask(b));
    } else {
      AndNotOther(x, Mask(b), Mask(c));
    }
  }

  lemma AndNotSame(x: bv8, m: bv8)
    ensures (x & !m) & m == 0
  {
  }

  lemma AndNotOther(x: bv8, m: bv8, n: bv8)
    requires m & n == 0
    ensures (x & !m) & n == x & n
  {
  }

  /** All bits of a buffer, lowest bit of the first byte first. */
  function AllBits(data: seq<bv8>): (bits: seq<bool>)
    ensures |bits| == 8 * |data|
  {
    seq(8 * |data|, p requires 0 <= p < 8 * |data| => Bit(data[p / 8], p % 8))
  }

  lemma PositionOf(p: nat, i: nat, b: nat)
    requires b < 8
    ensures p == 8 * i + b <==> p / 8 == i && p % 8 == b
  {
  }

  /** A byte that differs in one bit only. */
  lemma OneBitChanges(data: seq<bv8>, i: nat, x: bv8, b: nat, value: bool)
    requires i < |data| && b < 8
    requires forall c: nat | c < 8 :: Bit(x, c) == (if b == c then value else Bit(data[i], c))
    ensures AllBits(data[i := x]) == AllBits(data)[8 * i + b := value]
  {
    var bits, expected := AllBits(data[i := x]), AllBits(data)[8 * i + b := value];
    forall p | 0 <= p < 8 * |data| ensures bits[p] == expected[p] {
      PositionOf(p, i, b);
    }
  }

  lemma StoreBit(data: seq<bv8>, i: nat, b: nat)
    requires i < |data| && b < 8
    ensures AllBits(data[i := data[i] | Mask(b)]) == AllBits(data)[8 * i + b := true]
  {
    forall c: nat | c < 8 ensures Bit(data[i] | Mask(b), c) == (if b == c then true else Bit(data[i], c)) {
      SetOneBit(data[i], b, c);
    }
    OneBitChanges(data, i, data[i] | Mask(b), b, true);
  }

  lemma DropBit(data: seq<bv8>, i: nat, b: nat)
    requires i < |data| && b < 8
    ensures AllBits(data[i := data[i] & !Mask(b)]) == AllBits(data)[8 * i + b := false]
  {
    forall c: nat | c < 8 ensures Bit(data[i] & !Mask(b), c) == (if b == c then false else Bit(data[i], c)) {
      ClearOneBit(data[i], b, c);
    }
    OneBitChanges(data, i, data[i] & !Mask(b), b, false);
  }

  // ---- a queue of bits among other bits ------------------------------------------------------

  /** A queue of `count` bits from `out` on, in a circular sequence of bits. */
  datatype Queue = Queue(bits: seq<bool>, out: nat, count: nat) {
    predicate Valid() {
      out < |bits| && count <= |bits|
    }

    function End(): (p: nat)
      requires Valid()
      ensures p < |bits|
    {
      Wrap(out + count, |bits|)
    }

    function Contents(): (q: seq<bool>)
      requires Valid()
      ensures |q| == count
    {
      Window(bits, out, count)
    }

    /** The bits that are not queued, in circular order. */
    function Outside(): (s: seq<bool>)
      requires Valid()
      ensures |s| == |bits| - count
    {
      Window(bits, End(), |bits| - count)
    }

    predicate ClearOutside()
      requires Valid()
    {
      Outside() == Falses(|bits| - count)
    }
  }

  function Falses(n: nat): (s: seq<bool>)
    ensures |s| == n
  {
    seq(n, _ => false)
  }

  /** Storing a bit only ever sets the bit behind the queue. */
  function Put(q: Queue, bit: bool): (r: Queue)
    requires q.Valid() && q.count < |q.bits|
    ensures r.Valid()
  {
    q.(bits := q.bits[q.End() := q.bits[q.End()] || bit], count := q.count + 1)
  }

  /** Fetching a bit clears it. */
  function Take(q: Queue): (r: (Queue, bool))
    requires q.Valid() && q.count > 0
    ensures r.0.Valid()
  {
    (Queue(q.bits[q.out := false], Wrap(q.out + 1, |q.bits|), q.count - 1), q.bits[q.out])
  }

  /** The bit stored is appended, OR-ed with what was there. */
  lemma PutAppends(q: Queue, bit: bool)
    requires q.Valid() && q.count < |q.bits|
    ensures Put(q, bit).Contents() == q.Contents() + [q.bits[q.End()] || bit]
  {
    WindowAppends(q.bits, q.out, q.count, q.bits[q.End()] || bit);
  }

  /** The place behind the queue is the first one outside, and a store takes it. */
  lemma PutTakesOutside(q: Queue, bit: bool)
    requires q.Valid() && q.count < |q.bits|
    ensures q.Outside() == [q.bits[q.End()]] + Put(q, bit).Outside()
  {
    WindowDropsFirst(q.bits, q.End(), |q.bits| - q.count);
    BeforeWindow(q.bits, q.End(), |q.bits| - q.count - 1, q.bits[q.End()] || bit);
    WrapStep(q.out, q.count, |q.bits|);
  }

  /** In clear surroundings the bit there was clear, and the surroundings stay clear. */
  lemma PutKeepsClear(q: Queue, bit: bool)
    requires q.Valid() && q.count < |q.bits| && q.ClearOutside()
    ensures !q.bits[q.End()] && Put(q, bit).ClearOutside()
  {
    PutTakesOutside(q, bit);
    assert !q.Outside()[0];
    assert Put(q, bit).Outside() == q.Outside()[1..] == Falses(|q.bits| - q.count - 1);
  }

  /** The oldest bit is fetched and leaves the queue. */
  lemma TakeDrops(q: Queue)
    requires q.Valid() && q.count > 0
    ensures q.Contents() == [Take(q).1] + Take(q).0.Contents()
  {
    WindowDropsFirst(q.bits, q.out, q.count);
    BeforeWindow(q.bits, q.out, q.count - 1, false);
  }

  /** The place of a fetched bit is the last one outside, and clear. */
  lemma TakeGivesOutside(q: Queue)
    requires q.Valid() && q.count > 0
    ensures Take(q).0.Outside() == q.Outside() + [false]
  {
    var n := |q.bits|;
    WrapStep(q.out, q.count, n);
    if q.count < n {
      AroundTo(q.out, q.count, n);
      BehindWindow(q.bits, q.End(), n - q.count, false);
      WindowAppends(q.bits, q.End(), n - q.count, false);
    } else {
      assert Take(q).0.End() == q.out == Wrap(q.out + 0, n);
      assert Take(q).0.Outside() == [false];
    }
  }

  /** The place behind what is outside is where the queue begins. */
  lemma AroundTo(out: nat, count: nat, n: nat)
    requires out < n && 0 < count <= n
    ensures Wrap(Wrap(out + count, n) + (n - count), n) == out
  {
  }

  /** Clear surroundings stay clear. */
  lemma TakeKeepsClear(q: Queue)
    requires q.Valid() && q.count > 0 && q.ClearOutside()
    ensures Take(q).0.ClearOutside()
  {
    TakeGivesOutside(q);
  }

  lemma EmptyOutside(bits: seq<bool>)
    requires bits != []
    ensures Queue(bits, 0, 0).Outside() == bits
  {
    var w := Window(bits, 0, |bits|);
    forall p | 0 <= p < |bits| ensures w[p] == bits[p] {
      assert Wrap(0 + p, |bits|) == p;
    }
  }

  /** An empty queue in a clear buffer, and only there, leaves nothing set outside. */
  lemma ClearWhenEmpty(bits: seq<bool>)
    requires bits != []
    ensures Queue(bits, 0, 0).ClearOutside() <==> forall p | 0 <= p < |bits| :: !bits[p]
  {
    EmptyOutside(bits);
    if Queue(bits, 0, 0).ClearOutside() {
      forall p | 0 <= p < |bits| ensures !bits[p] {
        assert !Falses(|bits|)[p];
      }
    } else {
      assert exists p | 0 <= p < |bits| :: bits[p] != Falses(|bits|)[p];
    }
  }

  // ---- any run of stores and fetches from a buffer that was only initialised -----------------------

  datatype Op = Store(bit: bool) | Fetch

  /** A queue with everything that was stored in it and everything that was fetched. */
  datatype Run = Run(queue: Queue, stored: seq<bool>, fetched: seq<bool>) {
    /** Is this operation one that the callers may ask for? */
    predicate Allows(op: Op) {
      queue.Valid() && if op.Store? then queue.count < |queue.bits| else queue.count > 0
    }
  }

  function Step(h: Run, op: Op): Run
    requires h.Allows(op)
  {
    match op
    case Store(bit) => h.(queue := Put(h.queue, bit), stored := h.stored + [bit])
    case Fetch => h.(queue := Take(h.queue).0, fetched := h.fetched + [Take(h.queue).1])
  }

  predicate AllowedAll(bits: seq<bool>, ops: seq<Op>)
    decreases |ops|, 0
  {
    var last := |ops| - 1;
    ops == [] || (AllowedAll(bits, ops[..last]) && After(bits, ops[..last]).Allows(ops[last]))
  }

  /** What a buffer that held `bits` when it was initialised has come to. */
  function After(bits: seq<bool>, ops: seq<Op>): Run
    requires AllowedAll(bits, ops)
    decreases |ops|, 1
  {
    var last := |ops| - 1;
    if ops == [] then Run(Queue(bits, 0, 0), [], []) else Step(After(bits, ops[..last]), ops[last])
  }

  /** What was stored, on its first way round OR-ed with what the buffer held before. */
  function Merged(bits: seq<bool>, stored: seq<bool>): (r: seq<bool>)
    ensures |r| == |stored|
  {
    seq(|stored|, k requires 0 <= k < |stored| => stored[k] || (k < |bits| && bits[k]))
  }

  /** What `count` places hold that come next: on the first way round what they held before. */
  function Ahead(bits: seq<bool>, at: nat, count: nat): (r: seq<bool>)
    ensures |r| == count
  {
    seq(count, k requires 0 <= k < count => at + k < |bits| && bits[at + k])
  }

  ghost predicate MergedSoFar(bits: seq<bool>, h: Run) {
    && h.queue.Valid() && |h.queue.bits| == |bits|
    && |h.stored| == |h.fetched| + h.queue.count
    && h.fetched + h.queue.Contents() == Merged(bits, h.stored)
    && h.queue.Outside() == Ahead(bits, |h.stored|, |bits| - h.queue.count)
  }

  lemma StepMerges(bits: seq<bool>, h: Run, op: Op)
    requires MergedSoFar(bits, h) && h.Allows(op)
    ensures MergedSoFar(bits, Step(h, op))
  {
    hide Queue.Contents, Queue.Outside;
    var q := h.queue;
    var after := Step(h, op);
    match op
    case Store(bit) =>
      PutAppends(q, bit);
      PutTakesOutside(q, bit);
      var at := |h.stored|;
      assert q.bits[q.End()] == q.Outside()[0] == (at < |bits| && bits[at]);
      assert Merged(bits, after.stored) == Merged(bits, h.stored) + [bit || q.bits[q.End()]];
      assert after.queue.Outside() == q.Outside()[1..];
    case Fetch =>
      TakeDrops(q);
      TakeGivesOutside(q);
      assert after.fetched + after.queue.Contents() == h.fetched + q.Contents();
  }

  lemma {:induction false} RunMerges(bits: seq<bool>, ops: seq<Op>)
    requires bits != [] && AllowedAll(bits, ops)
    ensures MergedSoFar(bits, After(bits, ops))
    decreases |ops|
  {
    if ops == [] {
      EmptyOutside(bits);
      assert Ahead(bits, 0, |bits|) == bits;
    } else {
      var last := |ops| - 1;
      RunMerges(bits, ops[..last]);
      StepMerges(bits, After(bits, ops[..last]), ops[last]);
    }
  }

  /** In any run of stores and fetches, what has been fetched and what is queued are what was
      stored, OR-ed on the first way round with what the buffer held before. */
  lemma GivenBackMerged(bits: seq<bool>, ops: seq<Op>)
    requires bits != [] && AllowedAll(bits, ops)
    ensures var h := After(bits, ops);
      h.queue.Valid() && h.fetched + h.queue.Contents() == Merged(bits, h.stored)
  {
    RunMerges(bits, ops);
  }

  /** Everything comes out as it was stored, and in that order. */
  predicate ComesBack(bits: seq<bool>, ops: seq<Op>) {
    AllowedAll(bits, ops) ==>
      var h := After(bits, ops); h.queue.Valid() && h.fetched + h.queue.Contents() == h.stored
  }

  /** The run of `n` stores of false and as many fetches. */
  function FillAndEmpty(n: nat): (ops: seq<Op>)
    ensures |ops| == 2 * n
  {
    seq(2 * n, i requires 0 <= i => if i < n then Store(false) else Fetch)
  }

  lemma {:induction false} FillAndEmptyRuns(bits: seq<bool>, n: nat, i: nat)
    requires bits != [] && n <= |bits| && i <= 2 * n
    ensures var ops := FillAndEmpty(n)[..i];
      && AllowedAll(bits, ops)
      && var h := After(bits, ops);
         h.stored == Falses(if i <= n then i else n) && |h.fetched| == if i <= n then 0 else i - n
    decreases i
  {
    hide Queue.Contents, Queue.Outside, Merged, Ahead;
    var ops := FillAndEmpty(n)[..i];
    if i > 0 {
      FillAndEmptyRuns(bits, n, i - 1);
      assert ops[..i - 1] == FillAndEmpty(n)[..i - 1];
      RunMerges(bits, ops[..i - 1]);
    }
  }

  /** A bit that was set before at position `p` is what the last of `p + 1` fetches gives, after
      as many stores of false. */
  lemma SetBitComesOut(bits: seq<bool>, p: nat)
    requires p < |bits| && bits[p]
    ensures var ops := FillAndEmpty(p + 1);
      && AllowedAll(bits, ops)
      && var h := After(bits, ops); |h.fetched| == |h.stored| == p + 1 && h.fetched[p] && !h.stored[p]
  {
    var ops := FillAndEmpty(p + 1);
    assert ops[..|ops|] == ops;
    FillAndEmptyRuns(bits, p + 1, |ops|);
    RunMerges(bits, ops);
    var h := After(bits, ops);
    assert h.fetched + h.queue.Contents() == h.fetched;
    assert Merged(bits, h.stored)[p];
  }

  /** A buffer that was only initialised is a queue, whatever the order of stores and fetches,
      exactly when all its bits were clear before. */
  lemma GivesBackExactlyWhenClear(bits: seq<bool>)
    requires bits != []
    ensures (forall ops: seq<Op> :: ComesBack(bits, ops)) <==> forall p | 0 <= p < |bits| :: !bits[p]
  {
    if p :| 0 <= p < |bits| && bits[p] {
      SetBitComesOut(bits, p);
      var h := After(bits, FillAndEmpty(p + 1));
      RunMerges(bits, FillAndEmpty(p + 1));
      assert (h.fetched + h.queue.Contents())[p] != h.stored[p];
      assert !ComesBack(bits, FillAndEmpty(p + 1));
    } else {
      forall ops: seq<Op> ensures ComesBack(bits, ops) {
        if AllowedAll(bits, ops) {
          RunMerges(bits, ops);
          var h := After(bits, ops);
          assert Merged(bits, h.stored) == h.stored;
        }
      }
    }
  }

  // ---- the queue in packed bytes -----------------------------------------------------------------

  /** The bytes once a bit has been set, if it is to be set. */
  function WithBitSet(data: seq<bv8>, i: nat, b: nat, bit: bool): (after: seq<bv8>)
    requires i < |data| && b < 8
    ensures |after| == |data|
  {
    if bit then data[i := data[i] | Mask(b)] else data
  }

  /** The bytes once a bit has been cleared. */
  function WithBitClear(data: seq<bv8>, i: nat, b: nat): (after: seq<bv8>)
    requires i < |data| && b < 8
    ensures |after| == |data|
  {
    data[i := data[i] & !Mask(b)]
  }

  function QueueIn(data: seq<bv8>, out: nat, count: nat): Queue {
    Queue(AllBits(data), out, count)
  }

  /** Storing a bit, on the bytes of the buffer. */
  lemma StoreEffect(data: seq<bv8>, i: nat, b: nat, out: nat, count: nat, bit: bool)
    requires i < |data| && b < 8 && out < 8 * |data| && count < 8 * |data|
    requires 8 * i + b == Wrap(out + count, 8 * |data|)
    ensures QueueIn(WithBitSet(data, i, b, bit), out, count + 1) == Put(QueueIn(data, out, count), bit)
  {
    if bit {
      StoreBit(data, i, b);
    }
    assert AllBits(data)[8 * i + b := AllBits(data)[8 * i + b]] == AllBits(data);
  }

  /** Fetching and clearing a bit, on the bytes of the buffer. */
  lemma FetchEffect(data: seq<bv8>, i: nat, b: nat, out: nat, count: nat)
    requires i < |data| && b < 8 && 0 < count <= 8 * |data| && out == 8 * i + b
    ensures (QueueIn(WithBitClear(data, i, b), Wrap(out + 1, 8 * |data|), count - 1), Bit(data[i], b))
      == Take(QueueIn(data, out, count))
  {
    DropBit(data, i, b);
    PositionOf(out, i, b);
  }

  class BitBuffer {
    const data: array<bv8>
    var elements: nat
    var inByte: nat
    var inMask: bv8
    var outByte: nat
    var outMask: bv8
    ghost var inBit: nat
    ghost var outBit: nat
    /** The position of the oldest bit among all bits. */
    ghost var out: nat
    /** The queued bits, oldest first. */
    ghost var contents: seq<bool>

    function Capacity(): nat {
      8 * data.Length
    }

    /** The pointers and the counter describe where the queued bits are. */
    ghost predicate Pointing()
      reads this, data
    {
      && Placed() && elements <= Capacity() < 0x1_0000
      && 8 * inByte + inBit == Wrap(out + elements, Capacity())
      && contents == State().Contents()
    }

    /** The byte pointers and masks stand for bit positions. */
    ghost predicate Placed()
      reads this
    {
      && inByte < data.Length && inBit < 8 && inMask == Mask(inBit)
      && outByte < data.Length && outBit < 8 && outMask == Mask(outBit)
      && out == 8 * outByte + outBit
    }

    /** The bits of the buffer, and where the queue is among them. */
    ghost function State(): (q: Queue)
      reads this, data
      ensures |q.bits| == Capacity()
    {
      QueueIn(data[..], out, elements)
    }

    ghost predicate Valid()
      reads this, data
      ensures Valid() ==> |contents| == elements <= Capacity()
    {
      Pointing() && State().ClearOutside()
    }

    constructor (data: array<bv8>)
      requires 0 < data.Length && 8 * data.Length < 0x1_0000
      ensures this.data == data && Pointing() && contents == []
      ensures Valid() <==> forall p | 0 <= p < 8 * data.Length :: !AllBits(data[..])[p]
    {
      this.data := data;
      elements, inByte, outByte, inMask, outMask := 0, 0, 0, 0x01, 0x01;
      inBit, outBit, out, contents := 0, 0, 0, [];
      new;
      ClearWhenEmpty(AllBits(data[..]));
    }

    /** Empties the queue. The bytes are left alone, so the buffer is usable exactly if they are
        all zero. */
    method Init()
      requires 0 < data.Length && 8 * data.Length < 0x1_0000
      modifies this
      ensures Pointing() && contents == [] && State() == Queue(AllBits(data[..]), 0, 0)
      ensures Valid() <==> forall p | 0 <= p < Capacity() :: !AllBits(data[..])[p]
    {
      elements := 0;
      inByte, inMask, inBit := 0, 0x01, 0;
      outByte, outMask, outBit, out, contents := 0, 0x01, 0, 0, [];
      ClearWhenEmpty(AllBits(data[..]));
    }

    /** Moves the storing pointer to the next bit. */
    method AdvanceIn()
      requires Placed()
      modifies this`inByte, this`inMask, this`inBit
      ensures Placed()
      ensures 8 * inByte + inBit == Wrap(8 * old(inByte) + old(inBit) + 1, Capacity())
    {
      MaskShift(inBit);
      if inMask == 0x80 {
        if inByte != data.Length - 1 {
          inByte := inByte + 1;
        } else {
          inByte := 0;
        }
        inMask, inBit := 0x01, 0;
      } else {
        inMask, inBit := inMask << 1, inBit + 1;
      }
    }

    method SetInBit(bit: bool)
      requires Placed()
      modifies data
      ensures data[..] == WithBitSet(old(data[..]), inByte, inBit, bit)
    {
      if bit {
        data[inByte] := data[inByte] | inMask;
      }
    }

    /** Stores a bit; in a buffer whose other bits are clear it is appended as it is. */
    method StoreNextBit(bit: bool)
      requires Pointing() && elements < Capacity()
      modifies this, data
      ensures Pointing() && State() == Put(old(State()), bit)
      ensures old(Valid()) ==> Valid() && contents == old(contents) + [bit]
    {
      hide Window, WithBitSet, AllBits, Queue.ClearOutside;
      ghost var q := State();
      StoreEffect(data[..], inByte, inBit, out, elements, bit);
      PutAppends(q, bit);
      if q.ClearOutside() {
        PutKeepsClear(q, bit);
      }
      SetInBit(bit);
      ghost var after := data[..];
      elements := elements + 1;
      contents := Put(q, bit).Contents();
      AdvanceIn();
      assert data[..] == after;
    }

    /** Moves the fetching pointer to the next bit. */
    method AdvanceOut()
      requires Placed()
      modifies this`outByte, this`outMask, this`outBit, this`out
      ensures Placed() && out == Wrap(old(out) + 1, Capacity())
    {
      MaskShift(outBit);
      if outMask == 0x80 {
        if outByte != data.Length - 1 {
          outByte := outByte + 1;
        } else {
          outByte := 0;
        }
        outMask, outBit := 0x01, 0;
      } else {
        outMask, outBit := outMask << 1, outBit + 1;
      }
      out := 8 * outByte + outBit;
    }

    method TakeOutBit() returns (bit: bool)
      requires Placed()
      modifies data
      ensures bit == Bit(old(data[outByte]), outBit)
      ensures data[..] == WithBitClear(old(data[..]), outByte, outBit)
    {
      bit := data[outByte] & outMask != 0;
      data[outByte] := data[outByte] & !outMask;
    }

    /** Fetches the oldest bit and clears it. */
    method GetNextBit() returns (bit: bool)
      requires Pointing() && elements > 0
      modifies this, data
      ensures Pointing() && (State(), bit) == Take(old(State())) && old(contents) == [bit] + contents
      ensures old(Valid()) ==> Valid()
    {
      hide Window, WithBitClear, AllBits, Queue.ClearOutside;
      ghost var q := State();
      FetchEffect(data[..], outByte, outBit, out, elements);
      TakeDrops(q);
      if q.ClearOutside() {
        TakeKeepsClear(q);
      }
      assert data[..][outByte] == data[outByte];
      bit := TakeOutBit();
      ghost var after := data[..];
      elements := elements - 1;
      contents := Take(q).0.Contents();
      AdvanceOut();
      WrapStep(q.out, q.count, Capacity());
      assert data[..] == after;
      assert State() == Take(q).0;
    }
  }

  lemma WrapStep(out: nat, count: nat, n: nat)
    requires out < n && count <= n
    ensures count > 0 ==> Wrap(Wrap(out + 1, n) + (count - 1), n) == Wrap(out + count, n)
    ensures Wrap(Wrap(out + count, n) + 1, n) == Wrap(out + (count + 1), n) || count == n
  {
  }
}
