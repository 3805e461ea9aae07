/** A byte queue in a fixed circular buffer that drops its oldest byte when it is full. */
module RingBuffer {
  import opened Bytes
  import opened Circular

  /** What a store makes of a queue of at most `n` bytes. */
  function Stored(q: seq<byte>, x: byte, n: nat): seq<byte> {
    if q != [] && |q| >= n then q[1..] + [x] else q + [x]
  }

  class RingBuffer {
    const buffer: array<byte>
    var inPtr: nat
    var outPtr: nat
    var elements: nat
    ghost var contents: seq<byte>

    ghost predicate Valid()
      reads this, buffer
      ensures Valid() ==> |contents| == elements <= buffer.Length
    {
      && outPtr < buffer.Length && inPtr == Wrap(outPtr + elements, buffer.Length)
      && elements <= buffer.Length && contents == Window(buffer[..], outPtr, elements)
    }

    constructor (buffer: array<byte>)
      requires buffer.Length > 0
      ensures this.buffer == buffer && Valid() && contents == []
    {
      this.buffer := buffer;
      inPtr, outPtr, elements, contents := 0, 0, 0, [];
    }

    /** Empties the buffer. */
    method Initialize()
      requires buffer.Length > 0
      modifies this
      ensures Valid() && contents == []
    {
      inPtr := 0;
      outPtr := 0;
      elements := 0;
      contents := [];
    }

    method StoreElement(x: byte)
      requires Valid()
      modifies this, buffer
      ensures Valid() && contents == Stored(old(contents), x, buffer.Length)
    {
      hide Window;
      ghost var before := buffer[..];
      if elements == buffer.Length {
        WindowDropsFirst(before, outPtr, elements);
        outPtr := outPtr + 1;
        if outPtr == buffer.Length {
          outPtr := 0;
        }
        WindowAppends(before, outPtr, elements - 1, x);
      } else {
        WindowAppends(before, outPtr, elements, x);
        elements := elements + 1;
      }
      ghost var end := inPtr;
      buffer[inPtr] := x;
      assert buffer[..] == before[end := x];
      inPtr := inPtr + 1;
      if inPtr == buffer.Length {
        inPtr := 0;
      }
      contents := Window(buffer[..], outPtr, elements);
    }

    /** The oldest byte; the caller has made sure that there is one. */
    method GetElement() returns (x: byte)
      requires Valid() && elements > 0
      modifies this
      ensures Valid() && old(contents) == [x] + contents
    {
      WindowDropsFirst(buffer[..], outPtr, elements);
      x := buffer[outPtr];
      outPtr := outPtr + 1;
      elements := elements - 1;
      if outPtr == buffer.Length {
        outPtr := 0;
      }
      contents := contents[1..];
    }
  }

  /** `q` is the end of `s`. */
  predicate EndOf(q: seq<byte>, s: seq<byte>) {
    |q| <= |s| && s[|s| - |q|..] == q
  }

  /** A queue that holds the last bytes stored still does after a store or a fetch. */
  lemma EndKept(q: seq<byte>, s: seq<byte>, x: byte, n: nat)
    requires EndOf(q, s)
    ensures EndOf(Stored(q, x, n), s + [x])
    ensures q != [] ==> EndOf(q[1..], s)
  {
    var t := s + [x];
    assert t[|t| - |q + [x]|..] == s[|s| - |q|..] + [x];
    if q != [] {
      assert t[|t| - |q[1..] + [x]|..] == s[|s| - |q|..][1..] + [x];
    }
  }

  // ---- any history of stores and gets --------------------------------------------------------

  datatype Op = Store(x: byte) | Get

  /** A queue with everything ever stored in it, everything fetched, how much was dropped, and
      for each byte fetched how much had been dropped before it was. */
  datatype History = History(queue: seq<byte>, stored: seq<byte>, fetched: seq<byte>, dropped: nat, gaps: seq<nat>)

  const BEGINNING := History([], [], [], 0, [])

  predicate Possible(h: History, op: Op) {
    op.Get? ==> h.queue != []
  }

  function Do(h: History, op: Op, n: nat): History
    requires Possible(h, op)
  {
    match op
    case Store(x) =>
      h.(queue := Stored(h.queue, x, n), stored := h.stored + [x],
         dropped := if h.queue != [] && |h.queue| >= n then h.dropped + 1 else h.dropped)
    case Get => h.(queue := h.queue[1..], fetched := h.fetched + [h.queue[0]], gaps := h.gaps + [h.dropped])
  }

  predicate PossibleAll(h: History, ops: seq<Op>, n: nat)
    decreases |ops|
  {
    ops == [] || (Possible(h, ops[0]) && PossibleAll(Do(h, ops[0], n), ops[1..], n))
  }

  function DoAll(h: History, ops: seq<Op>, n: nat): History
    requires PossibleAll(h, ops, n)
    decreases |ops|
  {
    if ops == [] then h else DoAll(Do(h, ops[0], n), ops[1..], n)
  }

  /** The bytes fetched are stored bytes in their order: each one was stored after its
      predecessor, and what lies between was dropped. */
  predicate InOrder(h: History) {
    && |h.gaps| == |h.fetched|
    && (forall i :: 0 <= i < |h.gaps| ==>
          h.gaps[i] <= h.dropped && i + h.gaps[i] < |h.stored| && h.fetched[i] == h.stored[i + h.gaps[i]])
    && (forall i, j :: 0 <= i < j < |h.gaps| ==> h.gaps[i] <= h.gaps[j])
  }

  predicate Account(h: History, n: nat) {
    && |h.queue| <= n && |h.stored| == |h.fetched| + h.dropped + |h.queue|
    && EndOf(h.queue, h.stored) && InOrder(h)
  }

  lemma StepAccounts(h: History, op: Op, n: nat)
    requires n > 0 && Account(h, n) && Possible(h, op)
    ensures Account(Do(h, op, n), n)
  {
    EndKept(h.queue, h.stored, if op.Store? then op.x else 0, n);
    if op.Get? {
      assert h.queue[0] == h.stored[|h.stored| - |h.queue|];
    }
  }

  lemma {:induction false} AccountHolds(h: History, ops: seq<Op>, n: nat)
    requires n > 0 && Account(h, n) && PossibleAll(h, ops, n)
    ensures Account(DoAll(h, ops, n), n)
    decreases |ops|
  {
    if ops != [] {
      StepAccounts(h, ops[0], n);
      AccountHolds(Do(h, ops[0], n), ops[1..], n);
    }
  }

  /** After any history of stores and of gets from a non-empty buffer, the buffer holds exactly
      the last bytes stored, the bytes fetched came out in the order they went in, and every byte
      stored was fetched, dropped or is still there. */
  lemma HoldsLastStored(ops: seq<Op>, n: nat)
    requires n > 0 && PossibleAll(BEGINNING, ops, n)
    ensures var h := DoAll(BEGINNING, ops, n);
      && EndOf(h.queue, h.stored) && |h.queue| <= n && InOrder(h)
      && |h.stored| == |h.fetched| + h.dropped + |h.queue|
  {
    AccountHolds(BEGINNING, ops, n);
  }

  /** The bytes that a history stores. */
  function Stores(ops: seq<Op>): seq<byte> {
    if ops == [] then [] else (if ops[0].Store? then [ops[0].x] else []) + Stores(ops[1..])
  }

  /** How many bytes a buffer of `n` bytes holds after a history that begins with `level` of them: a
      store adds one unless it is full. */
  function Level(level: nat, ops: seq<Op>, n: nat): nat
    decreases |ops|
  {
    if ops == [] then level
    else Level(NextLevel(level, ops[0], n), ops[1..], n)
  }

  function NextLevel(level: nat, op: Op, n: nat): nat {
    if op.Get? then (if level == 0 then 0 else level - 1) else if level < n then level + 1 else n
  }

  lemma StepLevels(h: History, op: Op, n: nat)
    requires n > 0 && Account(h, n) && Possible(h, op)
    ensures Do(h, op, n).stored == h.stored + (if op.Store? then [op.x] else [])
    ensures |Do(h, op, n).queue| == NextLevel(|h.queue|, op, n)
  {
  }

  lemma {:induction false} LevelReached(h: History, ops: seq<Op>, n: nat)
    requires n > 0 && Account(h, n) && PossibleAll(h, ops, n)
    ensures |DoAll(h, ops, n).queue| == Level(|h.queue|, ops, n)
    decreases |ops|
  {
    hide Account, NextLevel, Do;
    if ops != [] {
      StepAccounts(h, ops[0], n);
      StepLevels(h, ops[0], n);
      LevelReached(Do(h, ops[0], n), ops[1..], n);
    }
  }

  lemma {:induction false} StoredAll(h: History, ops: seq<Op>, n: nat)
    requires n > 0 && Account(h, n) && PossibleAll(h, ops, n)
    ensures DoAll(h, ops, n).stored == h.stored + Stores(ops)
    decreases |ops|
  {
    hide Account, NextLevel, Do;
    if ops != [] {
      StepAccounts(h, ops[0], n);
      StepLevels(h, ops[0], n);
      StoredAll(Do(h, ops[0], n), ops[1..], n);
      Associate(h.stored, if ops[0].Store? then [ops[0].x] else [], Stores(ops[1..]));
    }
  }

  lemma Associate(a: seq<byte>, b: seq<byte>, c: seq<byte>)
    ensures a + b + c == a + (b + c)
  {
  }

  /** What the buffer holds, from the operations alone: the last bytes of all those stored, as many
      as the stores and gets leave in a buffer that only a store into a full one makes drop a byte. */
  lemma HoldsExactly(ops: seq<Op>, n: nat)
    requires n > 0 && PossibleAll(BEGINNING, ops, n)
    ensures var h := DoAll(BEGINNING, ops, n);
      var level := Level(0, ops, n);
      && level <= |Stores(ops)| && h.queue == Stores(ops)[|Stores(ops)| - level..]
      && |h.fetched| + h.dropped == |Stores(ops)| - level
  {
    LevelReached(BEGINNING, ops, n);
    StoredAll(BEGINNING, ops, n);
    AccountHolds(BEGINNING, ops, n);
  }

  /** A byte is dropped exactly when one is stored into a full buffer. */
  lemma DropsExactlyWhenFull(ops: seq<Op>, n: nat, op: Op)
    requires n > 0 && PossibleAll(BEGINNING, ops, n) && Possible(DoAll(BEGINNING, ops, n), op)
    ensures var h := DoAll(BEGINNING, ops, n);
      Do(h, op, n).dropped == h.dropped + (if op.Store? && Level(0, ops, n) == n then 1 else 0)
  {
    LevelReached(BEGINNING, ops, n);
    AccountHolds(BEGINNING, ops, n);
  }

  /** If nothing was dropped, what was fetched and what is queued is what was stored. */
  lemma NothingDropped(h: History, n: nat)
    requires Account(h, n) && h.dropped == 0
    ensures h.stored == h.fetched + h.queue
  {
    assert h.stored[|h.fetched|..] == h.queue;
  }
}
