/** The USB to serial bridge: the main loop and the receive interrupt as steps over two ring
    buffers. The interrupt may run between any two steps of the loop. */
module SerialBridge {
  import opened Bytes
  import R = RingBuffer

  const BUFF_STATICSIZE := 128

  /** Which step of the main loop comes next. */
  datatype Point =
    | Loading(remaining: nat)
    | Storing(remaining: nat)
    | CheckingHost
    | SendingHost
    | CheckingSerial
    | SendingSerial
    | Servicing

  /** The two queues with their histories, and the loop's place. */
  datatype Bridge = Bridge(toSerial: R.History, toHost: R.History, at: Point)

  /** The main loop does a step, for which the host may offer `available` bytes and sends
      `fromHost`; or the serial line delivers a byte. */
  datatype Event = Main(available: byte, fromHost: byte) | Interrupt(x: byte, configured: bool)

  function Start(): Bridge {
    Bridge(R.BEGINNING, R.BEGINNING, Servicing)
  }

  /** Reading an empty queue is a misuse that `Step` does not define further. */
  predicate Underflows(s: Bridge) {
    (s.at.SendingHost? && s.toHost.queue == []) || (s.at.SendingSerial? && s.toSerial.queue == [])
  }

  function Step(s: Bridge, e: Event): Bridge {
    match e
    case Interrupt(x, configured) =>
      if configured then s.(toHost := R.Do(s.toHost, R.Store(x), BUFF_STATICSIZE)) else s
    case Main(available, fromHost) =>
      match s.at
      case Servicing => s.(at := Loading(available))
      case Loading(remaining) =>
        s.(at := if remaining == 0 || BUFF_STATICSIZE - |s.toSerial.queue| == 0 then CheckingHost else Storing(remaining))
      case Storing(remaining) =>
        s.(toSerial := R.Do(s.toSerial, R.Store(fromHost), BUFF_STATICSIZE),
           at := Loading(if remaining > 0 then remaining - 1 else 0))
      case CheckingHost => s.(at := if s.toHost.queue != [] then SendingHost else CheckingSerial)
      case SendingHost =>
        if s.toHost.queue == [] then s else s.(toHost := R.Do(s.toHost, R.Get, BUFF_STATICSIZE), at := CheckingSerial)
      case CheckingSerial => s.(at := if s.toSerial.queue != [] then SendingSerial else Servicing)
      case SendingSerial =>
        if s.toSerial.queue == [] then s else s.(toSerial := R.Do(s.toSerial, R.Get, BUFF_STATICSIZE), at := Servicing)
  }

  function Run(s: Bridge, events: seq<Event>): Bridge
    decreases |events|
  {
    if events == [] then s else Run(Step(s, events[0]), events[1..])
  }

  predicate Inv(s: Bridge) {
    && R.Account(s.toSerial, BUFF_STATICSIZE) && s.toSerial.dropped == 0
    && R.Account(s.toHost, BUFF_STATICSIZE)
    && (s.at.Storing? ==> |s.toSerial.queue| < BUFF_STATICSIZE && s.at.remaining > 0)
    && !Underflows(s)
  }

  lemma StepKeepsInv(s: Bridge, e: Event)
    requires Inv(s)
    ensures Inv(Step(s, e))
  {
    match e {
      case Interrupt(x, configured) => R.StepAccounts(s.toHost, R.Store(x), BUFF_STATICSIZE);
      case Main(available, fromHost) =>
        if s.at.Storing? {
          R.StepAccounts(s.toSerial, R.Store(fromHost), BUFF_STATICSIZE);
        } else if s.at.SendingHost? {
          R.StepAccounts(s.toHost, R.Get, BUFF_STATICSIZE);
        } else if s.at.SendingSerial? {
          R.StepAccounts(s.toSerial, R.Get, BUFF_STATICSIZE);
        }
    }
  }

  lemma {:induction false} RunKeepsInv(s: Bridge, events: seq<Event>)
    requires Inv(s)
    ensures Inv(Run(s, events))
    decreases |events|
  {
    if events != [] {
      StepKeepsInv(s, events[0]);
      RunKeepsInv(Step(s, events[0]), events[1..]);
    }
  }

  /** Under every interleaving: from host to serial line no byte is lost, repeated or reordered;
      from the serial line to the host bytes are delivered in order, and each one stored was
      delivered, dropped while 128 newer ones were queued, or is still queued; and no buffer is
      ever read while it is empty. */
  lemma BridgeRuns(events: seq<Event>)
    ensures var s := Run(Start(), events);
      && s.toSerial.stored == s.toSerial.fetched + s.toSerial.queue
      && |s.toHost.stored| == |s.toHost.fetched| + s.toHost.dropped + |s.toHost.queue|
      && R.InOrder(s.toHost) && R.EndOf(s.toHost.queue, s.toHost.stored)
      && !Underflows(s)
  {
    RunKeepsInv(Start(), events);
    R.NothingDropped(Run(Start(), events).toSerial, BUFF_STATICSIZE);
  }

  /** The bytes the serial line delivered while the device was configured. */
  function Arrived(events: seq<Event>): seq<byte> {
    if events == [] then []
    else (if events[0].Interrupt? && events[0].configured then [events[0].x] else []) + Arrived(events[1..])
  }

  lemma {:induction false} RunStoresArrived(s: Bridge, events: seq<Event>)
    ensures Run(s, events).toHost.stored == s.toHost.stored + Arrived(events)
    decreases |events|
  {
    if events != [] {
      RunStoresArrived(Step(s, events[0]), events[1..]);
    }
  }

  /** What goes to the host is what arrives while the device is configured: the bytes fetched came
      from there in order, and the rest was dropped or is queued. */
  lemma HostGetsWhatArrived(events: seq<Event>)
    ensures var h := Run(Start(), events).toHost;
      h.stored == Arrived(events) && R.InOrder(h) && R.EndOf(h.queue, Arrived(events))
      && |Arrived(events)| == |h.fetched| + h.dropped + |h.queue|
  {
    RunStoresArrived(Start(), events);
    BridgeRuns(events);
  }

  // ---- a round of the main loop ------------------------------------------------------------------

  function Min(a: int, b: int): int {
    if a < b then a else b
  }

  /** From inside the loop up to the point where it begins again, with interrupts anywhere. */
  predicate RestOfRound(s: Bridge, events: seq<Event>)
    decreases |events|
  {
    && !s.at.Servicing? && events != []
    && var t := Step(s, events[0]);
       if t.at.Servicing? then |events| == 1 else RestOfRound(t, events[1..])
  }

  /** Every step of the loop brings its end nearer, and no interrupt delays it. */
  function StepsLeft(at: Point): nat {
    match at
    case Loading(remaining) => 2 * remaining + 6
    case Storing(remaining) => 2 * remaining + 5
    case CheckingHost => 5
    case SendingHost => 4
    case CheckingSerial => 3
    case SendingSerial => 2
    case Servicing => 0
  }

  lemma LoopMovesOn(s: Bridge, e: Event)
    requires Inv(s) && !s.at.Servicing?
    ensures if e.Main? then StepsLeft(Step(s, e).at) < StepsLeft(s.at) else Step(s, e).at == s.at
  {
  }

  /** How many host bytes the loop still takes. */
  function ToTake(s: Bridge): int
    requires Inv(s)
  {
    var room := BUFF_STATICSIZE - |s.toSerial.queue|;
    match s.at
    case Loading(remaining) => Min(remaining, room)
    case Storing(remaining) => Min(remaining, room)
    case _ => 0
  }

  /** Does the loop still send a byte to the serial line? */
  predicate ToSerialDue(s: Bridge)
    requires Inv(s)
  {
    s.at.SendingSerial? || (!s.at.Servicing? && |s.toSerial.queue| + ToTake(s) > 0)
  }

  /** Is the loop before its look at the queue for the host? */
  predicate BeforeHost(at: Point) {
    at.Loading? || at.Storing? || at.CheckingHost?
  }

  /** The bytes fetched for the host in the rest of a round: one or none; one if there is one
      already, none if nothing arrives. */
  predicate HostShare(s: Bridge, events: seq<Event>, fetched: int) {
    && (s.at.SendingHost? || (BeforeHost(s.at) && s.toHost.queue != []) ==> fetched == 1)
    && (s.at.CheckingSerial? || s.at.SendingSerial? ==> fetched == 0)
    && (BeforeHost(s.at) && s.toHost.queue == [] && Arrived(events) == [] ==> fetched == 0)
    && 0 <= fetched <= 1
  }

  /** What is still due to the serial line shrinks exactly by what a step does. */
  lemma StepTakes(s: Bridge, e: Event)
    requires Inv(s) && !s.at.Servicing?
    ensures Inv(Step(s, e))
    ensures var t := Step(s, e);
      && |t.toSerial.stored| + ToTake(t) == |s.toSerial.stored| + ToTake(s)
      && |t.toSerial.fetched| + (if ToSerialDue(t) then 1 else 0) == |s.toSerial.fetched| + (if ToSerialDue(s) then 1 else 0)
  {
    StepKeepsInv(s, e);
  }

  lemma {:induction false} RestOfRoundTakes(s: Bridge, events: seq<Event>)
    requires Inv(s) && RestOfRound(s, events)
    ensures var t := Run(s, events);
      && |t.toSerial.stored| == |s.toSerial.stored| + ToTake(s)
      && |t.toSerial.fetched| == |s.toSerial.fetched| + (if ToSerialDue(s) then 1 else 0)
    decreases |events|
  {
    StepTakes(s, events[0]);
    var t := Step(s, events[0]);
    hide Inv, Step;
    if !t.at.Servicing? {
      RestOfRoundTakes(t, events[1..]);
    } else {
      assert events[1..] == [];
    }
  }

  /** What one step does for the host. */
  lemma StepGives(s: Bridge, e: Event, rest: seq<Event>, later: int)
    requires Inv(s) && !s.at.Servicing?
    requires HostShare(Step(s, e), rest, later)
    requires Step(s, e).at.Servicing? ==> later == 0
    ensures HostShare(s, [e] + rest, later + |Step(s, e).toHost.fetched| - |s.toHost.fetched|)
  {
    assert ([e] + rest)[1..] == rest;
  }

  lemma {:induction false} RestOfRoundGives(s: Bridge, events: seq<Event>)
    requires Inv(s) && RestOfRound(s, events)
    ensures HostShare(s, events, |Run(s, events).toHost.fetched| - |s.toHost.fetched|)
    decreases |events|
  {
    StepKeepsInv(s, events[0]);
    var t := Step(s, events[0]);
    assert events == [events[0]] + events[1..];
    if !t.at.Servicing? {
      RestOfRoundGives(t, events[1..]);
      StepGives(s, events[0], events[1..], |Run(t, events[1..]).toHost.fetched| - |t.toHost.fetched|);
    } else {
      assert events[1..] == [] && Run(t, []) == t;
      StepGives(s, events[0], [], 0);
    }
  }

  /** One round of the main loop, from any reachable state and with the interrupt anywhere in it: it
      takes host bytes as long as there are any and there is room, then sends one byte to the host if
      there was one, and one to the serial line if there is one by then. */
  lemma RoundServesBoth(before: seq<Event>, available: byte, x: byte, round: seq<Event>)
    requires Run(Start(), before).at.Servicing?
    requires RestOfRound(Step(Run(Start(), before), Main(available, x)), round)
    ensures var s := Run(Start(), before);
      var t := Run(Step(s, Main(available, x)), round);
      var taken := Min(available, BUFF_STATICSIZE - |s.toSerial.queue|);
      var given := |t.toHost.fetched| - |s.toHost.fetched|;
      && |t.toSerial.stored| == |s.toSerial.stored| + taken
      && |t.toSerial.fetched| == |s.toSerial.fetched| + (if |s.toSerial.queue| + taken > 0 then 1 else 0)
      && (s.toHost.queue != [] ==> given == 1)
      && (s.toHost.queue == [] && Arrived(round) == [] ==> given == 0) && 0 <= given <= 1
  {
    var s := Run(Start(), before);
    RunKeepsInv(Start(), before);
    StepKeepsInv(s, Main(available, x));
    hide Run, RestOfRound, R.Account;
    RestOfRoundTakes(Step(s, Main(available, x)), round);
    RestOfRoundGives(Step(s, Main(available, x)), round);
  }

  /** A byte taken from the host goes behind all those taken before. */
  lemma HostByteIsQueued(events: seq<Event>, available: byte, x: byte)
    requires Run(Start(), events).at.Storing?
    ensures var s := Run(Start(), events);
      var t := Step(s, Main(available, x));
      t.toSerial.stored == s.toSerial.stored + [x] && t.toSerial.queue == s.toSerial.queue + [x]
  {
    RunKeepsInv(Start(), events);
  }

  // ---- the program ------------------------------------------------------------------------------

  class SerialBridge {
    const usbToUsart: R.RingBuffer
    const usartToUsb: R.RingBuffer
    var at: Point
    ghost var toSerial: R.History
    ghost var toHost: R.History

    constructor (usbToUsart: R.RingBuffer, usartToUsb: R.RingBuffer)
      requires usbToUsart != usartToUsb && usbToUsart.buffer != usartToUsb.buffer
      requires usbToUsart.Valid() && usbToUsart.buffer.Length == BUFF_STATICSIZE && usbToUsart.contents == []
      requires usartToUsb.Valid() && usartToUsb.buffer.Length == BUFF_STATICSIZE && usartToUsb.contents == []
      ensures this.usbToUsart == usbToUsart && this.usartToUsb == usartToUsb
      ensures Valid() && State() == Start()
    {
      this.usbToUsart, this.usartToUsb := usbToUsart, usartToUsb;
      at, toSerial, toHost := Servicing, R.BEGINNING, R.BEGINNING;
    }

    ghost predicate Valid()
      reads this, usbToUsart, usbToUsart.buffer, usartToUsb, usartToUsb.buffer
    {
      && usbToUsart != usartToUsb && usbToUsart.buffer != usartToUsb.buffer
      && usbToUsart.Valid() && usbToUsart.buffer.Length == BUFF_STATICSIZE
      && usartToUsb.Valid() && usartToUsb.buffer.Length == BUFF_STATICSIZE
      && toSerial.queue == usbToUsart.contents && toHost.queue == usartToUsb.contents
    }

    ghost function State(): Bridge
      reads this
    {
      Bridge(toSerial, toHost, at)
    }

    /** The receive interrupt. */
    method ByteReceived(x: byte, configured: bool)
      requires Valid()
      modifies this`toHost, usartToUsb, usartToUsb.buffer
      ensures Valid() && State() == Step(old(State()), Interrupt(x, configured))
    {
      if configured {
        toHost := R.Do(toHost, R.Store(x), BUFF_STATICSIZE);
        usartToUsb.StoreElement(x);
      }
    }

    /** The next step of the main loop. */
    method Continue(available: byte, fromHost: byte)
      requires Valid() && !Underflows(State())
      modifies this, usbToUsart, usbToUsart.buffer, usartToUsb
      ensures Valid() && State() == Step(old(State()), Main(available, fromHost))
    {
      match at {
        case Servicing => at := Loading(available);
        case Loading(remaining) =>
          at := if remaining == 0 || BUFF_STATICSIZE - usbToUsart.elements == 0 then CheckingHost else Storing(remaining);
        case Storing(remaining) =>
          usbToUsart.StoreElement(fromHost);
          toSerial := R.Do(toSerial, R.Store(fromHost), BUFF_STATICSIZE);
          at := Loading(if remaining > 0 then remaining - 1 else 0);
        case CheckingHost => at := if usartToUsb.elements != 0 then SendingHost else CheckingSerial;
        case SendingHost =>
          var _ := usartToUsb.GetElement();
          toHost := R.Do(toHost, R.Get, BUFF_STATICSIZE);
          at := CheckingSerial;
        case CheckingSerial => at := if usbToUsart.elements != 0 then SendingSerial else Servicing;
        case SendingSerial =>
          var _ := usbToUsart.GetElement();
          toSerial := R.Do(toSerial, R.Get, BUFF_STATICSIZE);
          at := Servicing;
      }
    }

    /** Loop steps and interrupts in the given order. */
    method Execute(events: seq<Event>)
      requires Valid() && Inv(State())
      modifies this, usbToUsart, usbToUsart.buffer, usartToUsb, usartToUsb.buffer
      ensures Valid() && State() == Run(old(State()), events) && Inv(State())
      decreases |events|
    {
      if events != [] {
        StepKeepsInv(State(), events[0]);
        match events[0] {
          case Main(available, fromHost) => Continue(available, fromHost);
          case Interrupt(x, configured) => ByteReceived(x, configured);
        }
        Execute(events[1..]);
      }
    }
  }
}
