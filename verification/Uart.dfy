/** The interrupt-driven UART: two rings shared, without locks, by the main program and the
    interrupt handlers. The main program is split into its single accesses to shared
    variables; a handler may run between any two of them. */
module Uart {
  import opened Bytes
  import opened Circular

  const TX_BUFFER_SIZE := 40
  const RX_BUFFER_SIZE := 64

  // ---- a ring of n slots: the slots after `tail` up to `head` are in use -----------------

  /** The slot after `i`, as the code computes it: increment, then reset at the end. */
  function Next(i: nat, n: nat): nat {
    if i + 1 >= n then 0 else i + 1
  }

  function Distance(tail: nat, head: nat, n: nat): nat
    requires tail < n && head < n
  {
    if head >= tail then head - tail else n + head - tail
  }

  function Queued(buffer: seq<byte>, tail: nat, head: nat): (q: seq<byte>)
    requires tail < |buffer| && head < |buffer|
    ensures |q| == Distance(tail, head, |buffer|)
  {
    Window(buffer, Next(tail, |buffer|), Distance(tail, head, |buffer|))
  }

  /** The slot after `head` is the one behind the window of queued bytes. */
  lemma BehindQueue(tail: nat, head: nat, n: nat)
    requires tail < n && head < n
    ensures Next(head, n) == Wrap(Next(tail, n) + Distance(tail, head, n), n)
    ensures Next(head, n) != tail ==> Distance(tail, Next(head, n), n) == Distance(tail, head, n) + 1
    ensures head != tail ==> Distance(Next(tail, n), head, n) == Distance(tail, head, n) - 1
  {
  }

  /** Publishing the slot after `head` appends it. */
  lemma PublishAppends(buffer: seq<byte>, tail: nat, head: nat)
    requires tail < |buffer| && head < |buffer| && Next(head, |buffer|) != tail
    ensures Queued(buffer, tail, Next(head, |buffer|)) == Queued(buffer, tail, head) + [buffer[Next(head, |buffer|)]]
  {
    var i := Next(head, |buffer|);
    BehindQueue(tail, head, |buffer|);
    WindowAppends(buffer, Next(tail, |buffer|), Distance(tail, head, |buffer|), buffer[i]);
    assert buffer[i := buffer[i]] == buffer;
  }

  /** Moving `tail` on takes the first byte out. */
  lemma AdvanceRemoves(buffer: seq<byte>, tail: nat, head: nat)
    requires tail < |buffer| && head < |buffer| && head != tail
    ensures var i := Next(tail, |buffer|);
      Queued(buffer, tail, head) == [buffer[i]] + Queued(buffer, i, head)
  {
    BehindQueue(tail, head, |buffer|);
    WindowDropsFirst(buffer, Next(tail, |buffer|), Distance(tail, head, |buffer|));
  }

  /** Writing the free slot after `head` disturbs nothing that is queued. */
  lemma StoreKeepsQueue(buffer: seq<byte>, tail: nat, head: nat, c: byte)
    requires tail < |buffer| && head < |buffer|
    ensures Queued(buffer[Next(head, |buffer|) := c], tail, head) == Queued(buffer, tail, head)
  {
    BehindQueue(tail, head, |buffer|);
    BehindWindow(buffer, Next(tail, |buffer|), Distance(tail, head, |buffer|), c);
  }

  /** The ring is full, one slot short, exactly when the slot after `head` is `tail`. */
  lemma FullWhen(tail: nat, head: nat, n: nat)
    requires tail < n && head < n
    ensures Next(head, n) == tail <==> Distance(tail, head, n) == n - 1
  {
  }

  // ---- transmitting ---------------------------------------------------------------------------

  /** Where `uart_putchar(c)` is: which shared access comes next. */
  datatype TxPoint =
    | TxIdle
    | TxPolling(c: byte, i: nat)
    | TxStoring(c: byte, i: nat)
    | TxPublishing(c: byte, i: nat)
    | TxEnabling

  /** The transmitter, with the bytes passed in and the bytes written to the data register. */
  datatype Tx = Tx(buffer: seq<byte>, head: nat, tail: nat, udrie: bool, at: TxPoint, given: seq<byte>, sent: seq<byte>)

  /** The main program calls, the main program goes on by one access, or the data register
      empty interrupt fires. A step that is not possible leaves the state alone. */
  datatype TxEvent = Put(c: byte) | TxContinue | TxInterrupt

  function TxStart(buffer: seq<byte>): Tx {
    Tx(buffer, 0, 0, false, TxIdle, [], [])
  }

  predicate TxShape(s: Tx) {
    && |s.buffer| == TX_BUFFER_SIZE && s.head < TX_BUFFER_SIZE && s.tail < TX_BUFFER_SIZE
    && (s.at.TxPolling? || s.at.TxStoring? || s.at.TxPublishing? ==> s.at.i < TX_BUFFER_SIZE)
  }

  function TxStep(s: Tx, e: TxEvent): (t: Tx)
    requires TxShape(s)
    ensures TxShape(t)
  {
    match e
    case Put(c) =>
      if s.at.TxIdle? then s.(at := TxPolling(c, Next(s.head, TX_BUFFER_SIZE)), given := s.given + [c]) else s
    case TxContinue =>
      (match s.at
       case TxIdle => s
       case TxPolling(c, i) => if s.tail == i then s else s.(at := TxStoring(c, i))
       case TxStoring(c, i) => s.(buffer := s.buffer[i := c], at := TxPublishing(c, i))
       case TxPublishing(c, i) => s.(head := i, at := TxEnabling)
       case TxEnabling => s.(udrie := true, at := TxIdle))
    case TxInterrupt =>
      if !s.udrie then s
      else if s.head == s.tail then s.(udrie := false)
      else var i := Next(s.tail, TX_BUFFER_SIZE); s.(sent := s.sent + [s.buffer[i]], tail := i)
  }

  function TxRun(s: Tx, events: seq<TxEvent>): (t: Tx)
    requires TxShape(s)
    ensures TxShape(t)
    decreases |events|
  {
    if events == [] then s else TxRun(TxStep(s, events[0]), events[1..])
  }

  function TxPending(s: Tx): seq<byte> {
    if s.at.TxPolling? || s.at.TxStoring? || s.at.TxPublishing? then [s.at.c] else []
  }

  predicate TxInv(s: Tx) {
    && TxShape(s)
    && s.given == s.sent + Queued(s.buffer, s.tail, s.head) + TxPending(s)
    && (s.head != s.tail ==> s.udrie || s.at.TxEnabling?)
    && (s.at.TxPolling? || s.at.TxStoring? || s.at.TxPublishing? ==> s.at.i == Next(s.head, TX_BUFFER_SIZE))
    && (s.at.TxStoring? || s.at.TxPublishing? ==> s.tail != s.at.i)
    && (s.at.TxPublishing? ==> s.buffer[s.at.i] == s.at.c)
  }

  lemma TxStepKeepsInv(s: Tx, e: TxEvent)
    requires TxInv(s)
    ensures TxInv(TxStep(s, e))
  {
    if e.TxContinue? && s.at.TxStoring? {
      StoreKeepsQueue(s.buffer, s.tail, s.head, s.at.c);
    } else if e.TxContinue? && s.at.TxPublishing? {
      PublishAppends(s.buffer, s.tail, s.head);
    } else if e.TxInterrupt? && s.head != s.tail {
      AdvanceRemoves(s.buffer, s.tail, s.head);
      var i := Next(s.tail, TX_BUFFER_SIZE);
      assert s.sent + ([s.buffer[i]] + Queued(s.buffer, i, s.head)) == s.sent + [s.buffer[i]] + Queued(s.buffer, i, s.head);
    }
  }

  lemma {:induction false} TxRunKeepsInv(s: Tx, events: seq<TxEvent>)
    requires TxInv(s)
    ensures TxInv(TxRun(s, events))
    decreases |events|
  {
    if events != [] {
      TxStepKeepsInv(s, events[0]);
      TxRunKeepsInv(TxStep(s, events[0]), events[1..]);
    }
  }

  /** Under every interleaving, the bytes written to the data register are the bytes passed in,
      in order, without loss or repetition, as far as they got; and the interrupt, when it takes a
      slot, takes the oldest byte not yet sent, never an unpublished slot. */
  lemma SentInOrder(buffer: seq<byte>, events: seq<TxEvent>)
    requires |buffer| == TX_BUFFER_SIZE
    ensures var s := TxRun(TxStart(buffer), events);
      && s.sent <= s.given
      && |s.given| - |s.sent| <= TX_BUFFER_SIZE
      && (s.udrie && s.head != s.tail ==>
            |s.sent| < |s.given| && s.buffer[Next(s.tail, TX_BUFFER_SIZE)] == s.given[|s.sent|])
  {
    TxRunKeepsInv(TxStart(buffer), events);
    var s := TxRun(TxStart(buffer), events);
    if s.head != s.tail {
      AdvanceRemoves(s.buffer, s.tail, s.head);
    }
  }

  /** No wakeup is lost: a producer waiting for space finds the interrupt enabled, and one
      interrupt lets it go on. */
  lemma WaitingProducerProceeds(buffer: seq<byte>, events: seq<TxEvent>)
    requires |buffer| == TX_BUFFER_SIZE
    ensures var s := TxRun(TxStart(buffer), events);
      s.at.TxPolling? && TxStep(s, TxContinue) == s ==>
        s.udrie && TxStep(TxStep(s, TxInterrupt), TxContinue).at.TxStoring?
  {
    TxRunKeepsInv(TxStart(buffer), events);
  }

  /** A producer waits exactly when the ring is full, one slot short of its size. */
  lemma ProducerWaitsExactlyWhenFull(buffer: seq<byte>, events: seq<TxEvent>)
    requires |buffer| == TX_BUFFER_SIZE
    ensures var s := TxRun(TxStart(buffer), events);
      s.at.TxPolling? ==>
        (TxStep(s, TxContinue) == s <==> |Queued(s.buffer, s.tail, s.head)| == TX_BUFFER_SIZE - 1)
  {
    TxRunKeepsInv(TxStart(buffer), events);
    var s := TxRun(TxStart(buffer), events);
    FullWhen(s.tail, s.head, TX_BUFFER_SIZE);
  }

  /** How many accesses `uart_putchar` still has to make, once it need not wait. */
  function TxLeft(at: TxPoint): nat {
    match at
    case TxIdle => 0
    case TxPolling(_, _) => 4
    case TxStoring(_, _) => 3
    case TxPublishing(_, _) => 2
    case TxEnabling => 1
  }

  function TxContinues(events: seq<TxEvent>): nat {
    if events == [] then 0 else (if events[0].TxContinue? then 1 else 0) + TxContinues(events[1..])
  }

  predicate NoPut(events: seq<TxEvent>) {
    forall e :: e in events ==> !e.Put?
  }

  /** With room in the ring, `uart_putchar` goes to its end whatever the interrupt does meanwhile. */
  lemma {:induction false} PutGoesOn(s: Tx, events: seq<TxEvent>)
    requires TxInv(s) && NoPut(events) && TxContinues(events) == TxLeft(s.at)
    requires s.at.TxPolling? ==> s.tail != s.at.i
    ensures var t := TxRun(s, events); t.at.TxIdle? && t.given == s.given && TxInv(t)
    decreases |events|
  {
    if events != [] {
      assert events[0] in events;
      TxStepKeepsInv(s, events[0]);
      PutGoesOn(TxStep(s, events[0]), events[1..]);
    }
  }

  /** A call of `uart_putchar` with room in the ring, from any reachable state and with the interrupt
      firing anywhere in between: it ends after its four accesses, and then its byte is behind
      everything sent and queued before, and the interrupt is on if anything is queued. */
  lemma PutAppends(buffer: seq<byte>, before: seq<TxEvent>, c: byte, events: seq<TxEvent>)
    requires |buffer| == TX_BUFFER_SIZE && NoPut(events) && TxContinues(events) == 4
    requires var s := TxRun(TxStart(buffer), before);
      s.at.TxIdle? && |Queued(s.buffer, s.tail, s.head)| < TX_BUFFER_SIZE - 1
    ensures var s := TxRun(TxStart(buffer), before);
      var t := TxRun(TxStep(s, Put(c)), events);
      && t.at.TxIdle?
      && t.sent + Queued(t.buffer, t.tail, t.head) == s.sent + Queued(s.buffer, s.tail, s.head) + [c]
      && (Queued(t.buffer, t.tail, t.head) != [] ==> t.udrie)
  {
    var s := TxRun(TxStart(buffer), before);
    TxRunKeepsInv(TxStart(buffer), before);
    TxStepKeepsInv(s, Put(c));
    FullWhen(s.tail, s.head, TX_BUFFER_SIZE);
    PutGoesOn(TxStep(s, Put(c)), events);
  }

  /** One interrupt writes the oldest byte queued to the data register, and switches itself off
      exactly when there is none. */
  lemma InterruptSendsOldest(buffer: seq<byte>, events: seq<TxEvent>)
    requires |buffer| == TX_BUFFER_SIZE
    ensures var s := TxRun(TxStart(buffer), events);
      var t := TxStep(s, TxInterrupt);
      var q := Queued(s.buffer, s.tail, s.head);
      s.udrie ==>
        && t.sent == s.sent + q[..if q == [] then 0 else 1] && t.udrie == (q != [])
        && Queued(t.buffer, t.tail, t.head) == q[if q == [] then 0 else 1..]
  {
    TxRunKeepsInv(TxStart(buffer), events);
    var s := TxRun(TxStart(buffer), events);
    if s.head != s.tail {
      AdvanceRemoves(s.buffer, s.tail, s.head);
    }
  }

  /** Left alone once the main program is idle, the interrupt sends everything there is and then
      switches itself off. */
  lemma {:induction false} Drains(s: Tx) returns (events: seq<TxEvent>)
    requires TxInv(s) && s.at.TxIdle?
    ensures forall e :: e in events ==> e == TxInterrupt
    ensures TxRun(s, events).sent == s.given && !TxRun(s, events).udrie
    decreases Distance(s.tail, s.head, TX_BUFFER_SIZE), s.udrie
  {
    if !s.udrie {
      events := [];
    } else {
      TxStepKeepsInv(s, TxInterrupt);
      if s.head != s.tail {
        AdvanceRemoves(s.buffer, s.tail, s.head);
      }
      var rest := Drains(TxStep(s, TxInterrupt));
      events := [TxInterrupt] + rest;
    }
  }

  /** The transmit half of the driver. `at` is where the main program is in `uart_putchar`;
      `given` and `sent` record what was passed in and what was written to UDR1. */
  class Transmitter {
    const buffer: array<byte>
    var head: nat
    var tail: nat
    var udrie: bool
    var at: TxPoint
    ghost var given: seq<byte>
    ghost var sent: seq<byte>

    constructor (buffer: array<byte>)
      requires buffer.Length == TX_BUFFER_SIZE
      ensures this.buffer == buffer && State() == TxStart(buffer[..])
    {
      this.buffer := buffer;
      head, tail, udrie, at, given, sent := 0, 0, false, TxIdle, [], [];
    }

    ghost function State(): Tx
      reads this, buffer
    {
      Tx(buffer[..], head, tail, udrie, at, given, sent)
    }

    /** `uart_putchar` up to its read of the head. */
    method PutChar(c: byte)
      requires TxShape(State())
      modifies this
      ensures State() == TxStep(old(State()), Put(c))
    {
      if at.TxIdle? {
        var i := head + 1;
        if i >= TX_BUFFER_SIZE {
          i := 0;
        }
        at := TxPolling(c, i);
        given := given + [c];
      }
    }

    /** The next single access of `uart_putchar`. */
    method Continue()
      requires TxShape(State())
      modifies this, buffer
      ensures State() == TxStep(old(State()), TxContinue)
    {
      match at {
        case TxIdle =>
        case TxPolling(c, i) =>
          if tail != i {
            at := TxStoring(c, i);
          }
        case TxStoring(c, i) =>
          buffer[i] := c;
          at := TxPublishing(c, i);
        case TxPublishing(_, i) =>
          head := i;
          at := TxEnabling;
        case TxEnabling =>
          udrie := true;
          at := TxIdle;
      }
    }

    /** The data register empty interrupt, as one step, if it is enabled. */
    method DataRegisterEmpty()
      requires TxShape(State())
      modifies this
      ensures State() == TxStep(old(State()), TxInterrupt)
    {
      if udrie {
        if head == tail {
          udrie := false;
        } else {
          var i := tail + 1;
          if i >= TX_BUFFER_SIZE {
            i := 0;
          }
          sent := sent + [buffer[i]];
          tail := i;
        }
      }
    }

    /** Main program and interrupt in the given order. */
    method Execute(events: seq<TxEvent>)
      requires TxShape(State())
      modifies this, buffer
      ensures State() == TxRun(old(State()), events)
      decreases |events|
    {
      if events != [] {
        match events[0] {
          case Put(c) => PutChar(c);
          case TxContinue => Continue();
          case TxInterrupt => DataRegisterEmpty();
        }
        Execute(events[1..]);
      }
    }
  }

  // ---- receiving -------------------------------------------------------------------------------

  /** Where the main program is in `uart_getchar` or `uart_available`; `counted` is the number
      of bytes that were queued when the latter read the head. */
  datatype RxPoint =
    | RxIdle
    | RxPolling
    | RxReading(i: nat)
    | RxReleasing(i: nat, c: byte)
    | RxCounting(head: nat, counted: nat)

  /** The receiver, with the bytes stored by the handler, those it dropped, those returned by
      `uart_getchar`, and the result of `uart_available`, if that was the last thing to return. */
  datatype Rx = Rx(buffer: seq<byte>, head: nat, tail: nat, at: RxPoint, accepted: seq<byte>, dropped: nat,
                   returned: seq<byte>, available: nat)

  datatype RxEvent = Get | Count | RxContinue | RxInterrupt(c: byte)

  function RxStart(buffer: seq<byte>): Rx {
    Rx(buffer, 0, 0, RxIdle, [], 0, [], 0)
  }

  predicate RxShape(s: Rx) {
    && |s.buffer| == RX_BUFFER_SIZE && s.head < RX_BUFFER_SIZE && s.tail < RX_BUFFER_SIZE
    && (s.at.RxReading? || s.at.RxReleasing? ==> s.at.i < RX_BUFFER_SIZE)
    && (s.at.RxCounting? ==> s.at.head < RX_BUFFER_SIZE)
  }

  function RxStep(s: Rx, e: RxEvent): (t: Rx)
    requires RxShape(s)
    ensures RxShape(t)
  {
    match e
    case Get => if s.at.RxIdle? then s.(at := RxPolling) else s
    case Count =>
      if s.at.RxIdle? then s.(at := RxCounting(s.head, |Queued(s.buffer, s.tail, s.head)|)) else s
    case RxContinue =>
      (match s.at
       case RxIdle => s
       case RxPolling => if s.head == s.tail then s else s.(at := RxReading(Next(s.tail, RX_BUFFER_SIZE)))
       case RxReading(i) => s.(at := RxReleasing(i, s.buffer[i]))
       case RxReleasing(i, c) => s.(tail := i, returned := s.returned + [c], at := RxIdle)
       case RxCounting(head, counted) =>
         s.(available := if head >= s.tail then head - s.tail else RX_BUFFER_SIZE + head - s.tail, at := RxIdle))
    case RxInterrupt(c) =>
      var i := Next(s.head, RX_BUFFER_SIZE);
      if i != s.tail then s.(buffer := s.buffer[i := c], head := i, accepted := s.accepted + [c])
      else s.(dropped := s.dropped + 1)
  }

  function RxRun(s: Rx, events: seq<RxEvent>): (t: Rx)
    requires RxShape(s)
    ensures RxShape(t)
    decreases |events|
  {
    if events == [] then s else RxRun(RxStep(s, events[0]), events[1..])
  }

  predicate RxInv(s: Rx) {
    && RxShape(s)
    && s.accepted == s.returned + Queued(s.buffer, s.tail, s.head)
    && (s.at.RxReading? || s.at.RxReleasing? ==> s.head != s.tail && s.at.i == Next(s.tail, RX_BUFFER_SIZE))
    && (s.at.RxReleasing? ==> s.at.c == s.buffer[s.at.i])
    && (s.at.RxCounting? ==>
          s.at.counted == Distance(s.tail, s.at.head, RX_BUFFER_SIZE) <= |Queued(s.buffer, s.tail, s.head)|)
  }

  lemma RxStepKeepsInv(s: Rx, e: RxEvent)
    requires RxInv(s)
    ensures RxInv(RxStep(s, e))
  {
    if e.RxContinue? && s.at.RxReleasing? {
      AdvanceRemoves(s.buffer, s.tail, s.head);
      assert s.returned + ([s.at.c] + Queued(s.buffer, s.at.i, s.head)) == s.returned + [s.at.c] + Queued(s.buffer, s.at.i, s.head);
    } else if e.RxInterrupt? && Next(s.head, RX_BUFFER_SIZE) != s.tail {
      var i := Next(s.head, RX_BUFFER_SIZE);
      StoreKeepsQueue(s.buffer, s.tail, s.head, e.c);
      PublishAppends(s.buffer[i := e.c], s.tail, s.head);
    }
  }

  lemma {:induction false} RxRunKeepsInv(s: Rx, events: seq<RxEvent>)
    requires RxInv(s)
    ensures RxInv(RxRun(s, events))
    decreases |events|
  {
    if events != [] {
      RxStepKeepsInv(s, events[0]);
      RxRunKeepsInv(RxStep(s, events[0]), events[1..]);
    }
  }

  /** Under every interleaving: `uart_getchar` returns the stored bytes in order; an arriving
      byte is dropped exactly when 63 are queued; and `uart_available` returns the number queued
      when it read the head, which is no more than there is when it returns. */
  lemma ReceivedInOrder(buffer: seq<byte>, events: seq<RxEvent>, c: byte)
    requires |buffer| == RX_BUFFER_SIZE
    ensures var s := RxRun(RxStart(buffer), events);
      var queued := |Queued(s.buffer, s.tail, s.head)|;
      && s.returned <= s.accepted && |s.accepted| == |s.returned| + queued
      && (RxStep(s, RxInterrupt(c)).dropped == s.dropped + 1 <==> queued == RX_BUFFER_SIZE - 1)
      && (s.at.RxCounting? ==> RxStep(s, RxContinue).available == s.at.counted <= queued)
  {
    RxRunKeepsInv(RxStart(buffer), events);
    var s := RxRun(RxStart(buffer), events);
    FullWhen(s.tail, s.head, RX_BUFFER_SIZE);
  }

  /** `uart_getchar` waits exactly while nothing is queued. */
  lemma ReaderWaitsExactlyWhenEmpty(buffer: seq<byte>, events: seq<RxEvent>)
    requires |buffer| == RX_BUFFER_SIZE
    ensures var s := RxRun(RxStart(buffer), events);
      s.at.RxPolling? ==> (RxStep(s, RxContinue) == s <==> Queued(s.buffer, s.tail, s.head) == [])
  {
    RxRunKeepsInv(RxStart(buffer), events);
  }

  /** A byte that arrives is queued behind the others, unless 63 are queued: then nothing but the
      count of dropped bytes changes. */
  lemma ArrivalQueues(buffer: seq<byte>, events: seq<RxEvent>, c: byte)
    requires |buffer| == RX_BUFFER_SIZE
    ensures var s := RxRun(RxStart(buffer), events);
      var t := RxStep(s, RxInterrupt(c));
      var q := Queued(s.buffer, s.tail, s.head);
      if |q| == RX_BUFFER_SIZE - 1 then t == s.(dropped := s.dropped + 1)
      else t.accepted == s.accepted + [c] && Queued(t.buffer, t.tail, t.head) == q + [c]
           && t.dropped == s.dropped && t.at == s.at && t.returned == s.returned
  {
    var s := RxRun(RxStart(buffer), events);
    RxRunKeepsInv(RxStart(buffer), events);
    FullWhen(s.tail, s.head, RX_BUFFER_SIZE);
    if |Queued(s.buffer, s.tail, s.head)| != RX_BUFFER_SIZE - 1 {
      QueuedGrows(s, c);
    }
  }

  lemma QueuedGrows(s: Rx, c: byte)
    requires RxShape(s) && Next(s.head, RX_BUFFER_SIZE) != s.tail
    ensures var t := RxStep(s, RxInterrupt(c));
      Queued(t.buffer, t.tail, t.head) == Queued(s.buffer, s.tail, s.head) + [c]
  {
    StoreKeepsQueue(s.buffer, s.tail, s.head, c);
    PublishAppends(s.buffer[Next(s.head, RX_BUFFER_SIZE) := c], s.tail, s.head);
  }

  /** How many accesses `uart_getchar` still has to make, once it need not wait. */
  function RxLeft(at: RxPoint): nat {
    match at
    case RxPolling => 3
    case RxReading(_) => 2
    case RxReleasing(_, _) => 1
    case _ => 0
  }

  function RxContinues(events: seq<RxEvent>): nat {
    if events == [] then 0 else (if events[0].RxContinue? then 1 else 0) + RxContinues(events[1..])
  }

  predicate NoCall(events: seq<RxEvent>) {
    forall e :: e in events ==> e.RxContinue? || e.RxInterrupt?
  }

  /** What `uart_getchar` will have returned when it ends. */
  function Due(s: Rx): seq<byte>
    requires RxShape(s) && (RxLeft(s.at) > 0 ==> s.head != s.tail)
  {
    if RxLeft(s.at) == 0 then s.returned else s.returned + [Queued(s.buffer, s.tail, s.head)[0]]
  }

  /** Any step but a new call leaves what is due alone. */
  lemma DueStays(s: Rx, e: RxEvent)
    requires RxInv(s) && (RxLeft(s.at) > 0 ==> s.head != s.tail) && !s.at.RxCounting?
    requires e.RxContinue? || e.RxInterrupt?
    ensures var t := RxStep(s, e);
      && !t.at.RxCounting? && (RxLeft(t.at) > 0 ==> t.head != t.tail) && Due(t) == Due(s)
      && RxLeft(t.at) == if e.RxContinue? && RxLeft(s.at) > 0 then RxLeft(s.at) - 1 else RxLeft(s.at)
  {
    if e.RxInterrupt? && Next(s.head, RX_BUFFER_SIZE) != s.tail {
      QueuedGrows(s, e.c);
    } else if s.at.RxReleasing? {
      AdvanceRemoves(s.buffer, s.tail, s.head);
    }
  }

  lemma {:induction false} GetGoesOn(s: Rx, events: seq<RxEvent>)
    requires RxInv(s) && (RxLeft(s.at) > 0 ==> s.head != s.tail) && !s.at.RxCounting?
    requires NoCall(events) && RxContinues(events) == RxLeft(s.at)
    ensures var t := RxRun(s, events); t.at.RxIdle? && t.returned == Due(s)
    decreases |events|
  {
    if events != [] {
      assert events[0] in events;
      DueStays(s, events[0]);
      RxStepKeepsInv(s, events[0]);
      GetGoesOn(RxStep(s, events[0]), events[1..]);
    }
  }

  /** A call of `uart_getchar` with a byte queued, from any reachable state and with bytes arriving
      anywhere in between: it returns the oldest byte and ends after its three accesses. */
  lemma GetReturnsOldest(buffer: seq<byte>, before: seq<RxEvent>, events: seq<RxEvent>)
    requires |buffer| == RX_BUFFER_SIZE && NoCall(events) && RxContinues(events) == 3
    requires var s := RxRun(RxStart(buffer), before);
      s.at.RxIdle? && Queued(s.buffer, s.tail, s.head) != []
    ensures var s := RxRun(RxStart(buffer), before);
      var t := RxRun(RxStep(s, Get), events);
      t.at.RxIdle? && t.returned == s.returned + [Queued(s.buffer, s.tail, s.head)[0]]
  {
    var s := RxRun(RxStart(buffer), before);
    RxRunKeepsInv(RxStart(buffer), before);
    RxStepKeepsInv(s, Get);
    GetGoesOn(RxStep(s, Get), events);
  }

  lemma {:induction false} CountGoesOn(s: Rx, events: seq<RxEvent>)
    requires RxInv(s) && s.at.RxCounting? && NoCall(events) && RxContinues(events) > 0
    ensures var t := RxRun(s, events); t.at.RxIdle? && t.available == s.at.counted
    decreases |events|
  {
    assert events[0] in events;
    RxStepKeepsInv(s, events[0]);
    if events[0].RxContinue? {
      CountEnds(RxStep(s, events[0]), events[1..]);
    } else {
      CountGoesOn(RxStep(s, events[0]), events[1..]);
    }
  }

  lemma {:induction false} CountEnds(s: Rx, events: seq<RxEvent>)
    requires RxShape(s) && s.at.RxIdle? && NoCall(events)
    ensures RxRun(s, events).at.RxIdle? && RxRun(s, events).available == s.available
    decreases |events|
  {
    if events != [] {
      assert events[0] in events;
      CountEnds(RxStep(s, events[0]), events[1..]);
    }
  }

  /** A call of `uart_available` ends after its two accesses with the number of bytes that were
      queued when it began, whatever arrives meanwhile. */
  lemma AvailableCounts(buffer: seq<byte>, before: seq<RxEvent>, events: seq<RxEvent>)
    requires |buffer| == RX_BUFFER_SIZE && NoCall(events) && RxContinues(events) > 0
    requires RxRun(RxStart(buffer), before).at.RxIdle?
    ensures var s := RxRun(RxStart(buffer), before);
      var t := RxRun(RxStep(s, Count), events);
      t.at.RxIdle? && t.available == |Queued(s.buffer, s.tail, s.head)|
  {
    var s := RxRun(RxStart(buffer), before);
    RxRunKeepsInv(RxStart(buffer), before);
    RxStepKeepsInv(s, Count);
    CountGoesOn(RxStep(s, Count), events);
  }

  /** The receive half of the driver; the ghost fields record its history. */
  class Receiver {
    const buffer: array<byte>
    var head: nat
    var tail: nat
    var at: RxPoint
    var available: nat
    ghost var accepted: seq<byte>
    ghost var dropped: nat
    ghost var returned: seq<byte>

    constructor (buffer: array<byte>)
      requires buffer.Length == RX_BUFFER_SIZE
      ensures this.buffer == buffer && State() == RxStart(buffer[..])
    {
      this.buffer := buffer;
      head, tail, at, available := 0, 0, RxIdle, 0;
      accepted, dropped, returned := [], 0, [];
    }

    ghost function State(): Rx
      reads this, buffer
    {
      Rx(buffer[..], head, tail, at, accepted, dropped, returned, available)
    }

    method GetChar()
      requires RxShape(State())
      modifies this
      ensures State() == RxStep(old(State()), Get)
    {
      if at.RxIdle? {
        at := RxPolling;
      }
    }

    /** `uart_available` up to its read of the head. */
    method Available()
      requires RxShape(State())
      modifies this
      ensures State() == RxStep(old(State()), Count)
    {
      if at.RxIdle? {
        at := RxCounting(head, if head >= tail then head - tail else RX_BUFFER_SIZE + head - tail);
      }
    }

    /** The next single access of the function in progress. */
    method Continue()
      requires RxShape(State())
      modifies this
      ensures State() == RxStep(old(State()), RxContinue)
    {
      match at {
        case RxIdle =>
        case RxPolling =>
          if head != tail {
            at := RxReading(if tail + 1 >= RX_BUFFER_SIZE then 0 else tail + 1);
          }
        case RxReading(i) =>
          at := RxReleasing(i, buffer[i]);
        case RxReleasing(i, c) =>
          tail := i;
          returned := returned + [c];
          at := RxIdle;
        case RxCounting(h, _) =>
          if h >= tail {
            available := h - tail;
          } else {
            available := RX_BUFFER_SIZE + h - tail;
          }
          at := RxIdle;
      }
    }

    /** The receive interrupt, as one step. */
    method ByteArrived(c: byte)
      requires RxShape(State())
      modifies this, buffer
      ensures State() == RxStep(old(State()), RxInterrupt(c))
    {
      var i := head + 1;
      if i >= RX_BUFFER_SIZE {
        i := 0;
      }
      if i != tail {
        buffer[i] := c;
        head := i;
        accepted := accepted + [c];
      } else {
        dropped := dropped + 1;
      }
    }

    method Execute(events: seq<RxEvent>)
      requires RxShape(State())
      modifies this, buffer
      ensures State() == RxRun(old(State()), events)
      decreases |events|
    {
      if events != [] {
        match events[0] {
          case Get => GetChar();
          case Count => Available();
          case RxContinue => Continue();
          case RxInterrupt(c) => ByteArrived(c);
        }
        Execute(events[1..]);
      }
    }
  }
}
