/** The DHCP client: it asks for an address, requests the first one offered and takes it when the
    server agrees (RFC 2131 section 4.4). */
module DhcpClient {
  import opened Bytes
  import opened DhcpOptions

  const DISCOVER: byte := 1
  const OFFER: byte := 2
  const REQUEST: byte := 3
  const ACK: byte := 5

  const SUBNET_MASK: byte := 1
  const ROUTER: byte := 3
  const DNS_SERVER: byte := 6
  const REQ_IPADDR: byte := 50
  const MSG_TYPE: byte := 53
  const SERVER_ID: byte := 54
  const REQ_LIST: byte := 55

  /** The transaction identifier, cookie and broadcast flag as the little-endian processor lays
      them out. */
  const TRANSACTION: seq<byte> := [0x66, 0x54, 0x24, 0x13]
  const COOKIE: seq<byte> := [0x63, 0x82, 0x53, 0x63]
  const BROADCAST: seq<byte> := [0x80, 0x00]

  /** Where the options start: the size of the fixed header. */
  const HEADER: nat := 240

  function Zeros(n: nat): (z: seq<byte>)
    ensures |z| == n
  {
    seq(n, _ => 0)
  }

  type Address = a: seq<byte> | |a| == 4 witness Zeros(4)

  /** The record kept of an offer: allocated address, netmask, gateway and server, in this order. */
  type Offered = o: seq<byte> | |o| == 16 witness Zeros(16)

  type Mac = m: seq<byte> | |m| == 6 witness Zeros(6)

  datatype State = SendDiscover | WaitForOffer | SendRequest | WaitForAck | AddressLeased

  datatype Client = Client(state: State, offer: Offered, host: Address, netmask: Address, router: Address)

  // ---- messages -----------------------------------------------------------------------------

  function Header(host: Address, offer: Offered, mac: Mac): (h: seq<byte>)
    ensures |h| == HEADER && h[4..8] == TRANSACTION
  {
    [1, 1, 6, 0] + TRANSACTION + [0, 0] + BROADCAST + host + offer[..4] + offer[12..16] + Zeros(4)
    + mac + Zeros(202) + COOKIE
  }

  function MessageItems(kind: byte, items: seq<Item>): (r: seq<Item>)
    requires AllValid(items)
    ensures AllValid(r)
  {
    [Item(MSG_TYPE, [kind])] + items
  }

  function Message(kind: byte, host: Address, offer: Offered, mac: Mac, items: seq<Item>): (m: seq<byte>)
    requires AllValid(items)
  {
    Header(host, offer, mac) + Encoded(MessageItems(kind, items)) + [END]
  }

  function Discovery(mac: Mac): seq<byte> {
    Message(DISCOVER, Zeros(4), Zeros(16), mac, [Item(REQ_LIST, [SUBNET_MASK, ROUTER, DNS_SERVER])])
  }

  function Requested(host: Address, offer: Offered, mac: Mac): seq<byte> {
    Message(REQUEST, host, offer, mac, [Item(REQ_IPADDR, offer[..4]), Item(SERVER_ID, offer[12..16])])
  }

  /** The data an option of a message has, if its list can be walked and holds the option. */
  function Option(message: seq<byte>, code: byte): Maybe<seq<byte>> {
    if Terminated(message, HEADER) then Find(Items(message, HEADER), code) else None
  }

  /** Does a message carry the client's transaction identifier? The fixed header must be there. */
  predicate Mine(message: seq<byte>)
    requires |message| >= HEADER
  {
    message[4..8] == TRANSACTION
  }

  /** A message whose type can be read: its options end inside it, and a message type is a byte. */
  predicate Readable(message: seq<byte>) {
    Terminated(message, HEADER) && (Option(message, MSG_TYPE).Some? ==> |Option(message, MSG_TYPE).value| == 1)
  }

  predicate Answers(message: seq<byte>, kind: byte)
    requires |message| >= HEADER
  {
    Mine(message) && Option(message, MSG_TYPE) == Some([kind])
  }

  function YourIp(message: seq<byte>): Address
    requires |message| >= HEADER
  {
    message[16..20]
  }

  /** How long the data of an option is, none counting as empty. */
  function Length(message: seq<byte>, code: byte): nat {
    if Option(message, code).Some? then |Option(message, code).value| else 0
  }

  /** The four copies made of an offer stay inside `size` bytes. */
  predicate CopiesFit(message: seq<byte>, size: nat) {
    && size >= 4
    && (Option(message, SUBNET_MASK).Some? ==> 4 + Length(message, SUBNET_MASK) <= size)
    && (Option(message, ROUTER).Some? ==> 8 + Length(message, ROUTER) <= size)
    && (Option(message, SERVER_ID).Some? ==> 12 + Length(message, SERVER_ID) <= size)
  }

  /** The memory from the record on after an offer was copied to it, field by field. */
  function Copied(memory: seq<byte>, message: seq<byte>): (after: seq<byte>)
    requires |message| >= HEADER && CopiesFit(message, |memory|)
    ensures |after| == |memory|
  {
    var m1 := Overlay(memory, 0, YourIp(message));
    var m2 := Fetched(m1, 4, Option(message, SUBNET_MASK));
    var m3 := Fetched(m2, 8, Option(message, ROUTER));
    Fetched(m3, 12, Option(message, SERVER_ID))
  }

  /** The 16-byte record after an offer whose options fit was copied to it. */
  function Taken(offer: Offered, message: seq<byte>): Offered
    requires |message| >= HEADER && CopiesFit(message, 16)
  {
    Copied(offer, message)
  }

  /** What a message that arrives must satisfy for the client to be able to deal with it: nothing
      but its fixed header if it is not for this client or not waited for. */
  predicate Manageable(state: State, message: seq<byte>) {
    && |message| >= HEADER
    && (state == WaitForOffer && Mine(message) ==>
          Readable(message) && (Answers(message, OFFER) ==> CopiesFit(message, 16)))
    && (state == WaitForAck && Mine(message) ==> Readable(message))
  }

  /** One callback, as a function of the client: its new state and the message it sends, if any. */
  function Step(c: Client, mac: Mac, packet: seq<byte>, newdata: bool, expired: bool): (Client, seq<byte>)
    requires newdata ==> Manageable(c.state, packet)
  {
    var waiting := if expired then c.(state := SendDiscover) else c;
    match c.state
    case SendDiscover => (c.(state := WaitForOffer, offer := Zeros(16), host := Zeros(4)), Discovery(mac))
    case WaitForOffer =>
      if !newdata then (waiting, [])
      else if Answers(packet, OFFER) then (c.(state := SendRequest, offer := Taken(c.offer, packet)), [])
      else (c, [])
    case SendRequest => (c.(state := WaitForAck), Requested(c.host, c.offer, mac))
    case WaitForAck =>
      if !newdata then (waiting, [])
      else if Answers(packet, ACK)
      then (Client(AddressLeased, c.offer, c.offer[..4], c.offer[4..8], c.offer[8..12]), [])
      else (c, [])
    case AddressLeased => (c, [])
  }

  /** A message's option list reads back as the options put in it, and its end is the message's. */
  lemma MessageReadsBack(kind: byte, host: Address, offer: Offered, mac: Mac, items: seq<Item>, rest: seq<byte>)
    requires AllValid(items)
    ensures var m := Message(kind, host, offer, mac, items);
      && Terminated(m + rest, HEADER) && Items(m + rest, HEADER) == MessageItems(kind, items)
      && EndAt(m + rest, HEADER) + 1 == |m|
  {
    var m := Message(kind, host, offer, mac, items);
    var encoded := Encoded(MessageItems(kind, items));
    assert (m + rest)[HEADER..HEADER + |encoded|] == encoded;
    EncodingWalksBack(m + rest, HEADER, MessageItems(kind, items));
  }

  lemma MessageOfType(kind: byte, host: Address, offer: Offered, mac: Mac)
    ensures Message(kind, host, offer, mac, []) == Header(host, offer, mac) + [MSG_TYPE, 1, kind, END]
  {
    assert Encoded([]) == [];
    assert Encoded(MessageItems(kind, [])) == [MSG_TYPE, 1, kind];
  }

  /** Setting an option of a message makes the message with that option as well. */
  lemma MessageGrows(kind: byte, host: Address, offer: Offered, mac: Mac, items: seq<Item>, item: Item, rest: seq<byte>)
    requires AllValid(items) && item.Valid() && |item.data| + 2 <= |rest|
    ensures var m := Message(kind, host, offer, mac, items);
      && Terminated(m + rest, HEADER) && EndAt(m + rest, HEADER) + |item.data| + 3 <= |m + rest|
      && WithOption(m + rest, HEADER, item.code, item.data)
         == Message(kind, host, offer, mac, items + [item]) + rest[2 + |item.data|..]
      && |Message(kind, host, offer, mac, items + [item])| == |m| + 2 + |item.data|
  {
    MessageReadsBack(kind, host, offer, mac, items, rest);
    var before := MessageItems(kind, items);
    EncodedAppend(before, [item]);
    assert MessageItems(kind, items + [item]) == before + [item];
    assert Encoded([item]) == [item.code, |item.data|] + item.data + Encoded([]);
    OverlayGrows(Header(host, offer, mac) + Encoded(before), [item.code, |item.data|] + item.data, rest);
    assert Header(host, offer, mac) + Encoded(before + [item])
        == Header(host, offer, mac) + Encoded(before) + ([item.code, |item.data|] + item.data);
  }

  lemma ZerosSplit(head: seq<byte>, k: nat, n: nat, tail: seq<byte>)
    requires k <= n
    ensures head + Zeros(n) + tail == head + Zeros(k) + Zeros(n - k) + tail
  {
  }

  lemma OverlayGrows(head: seq<byte>, more: seq<byte>, rest: seq<byte>)
    requires |more| <= |rest|
    ensures Overlay(head + [END] + rest, |head|, more + [END]) == head + more + [END] + rest[|more|..]
  {
  }

  class DhcpClient {
    const buffer: array<byte>
    const offer: array<byte>
    const mac: Mac
    var state: State
    var host: Address
    var netmask: Address
    var router: Address

    /** The buffer can hold the longest message sent, a request. */
    ghost predicate Valid()
      reads this
    {
      buffer.Length >= 256 && offer.Length == 16 && buffer != offer
    }

    ghost function Abstract(): Client
      requires Valid()
      reads this, offer
    {
      Client(state, offer[..], host, netmask, router)
    }

    /** Only the state is set at the start; everything else is whatever memory held. */
    constructor (buffer: array<byte>, offer: array<byte>, mac: Mac, garbage: Client)
      requires buffer.Length >= 256 && offer.Length == 16 && buffer != offer
      ensures Valid() && this.buffer == buffer && this.offer == offer && this.mac == mac
      ensures Abstract() == Client(SendDiscover, offer[..], garbage.host, garbage.netmask, garbage.router)
    {
      this.buffer, this.offer, this.mac := buffer, offer, mac;
      state, host, netmask, router := SendDiscover, garbage.host, garbage.netmask, garbage.router;
    }

    /** One run of the client: `newdata` tells that the buffer holds a message that arrived,
        `expired` that the time to wait is over. The size of what is sent is returned. */
    method Callback(newdata: bool, expired: bool) returns (size: nat)
      requires Valid() && (newdata ==> Manageable(state, buffer[..]))
      modifies this, buffer, offer
      ensures Valid()
      ensures var (c, sent) := Step(old(Abstract()), mac, old(buffer[..]), newdata, expired);
        Abstract() == c && size == |sent| <= buffer.Length && buffer[..] == sent + old(buffer[..])[|sent|..]
    {
      size := 0;
      match state {
        case SendDiscover =>
          size := SendDiscovery();
          state := WaitForOffer;
        case WaitForOffer =>
          if !newdata {
            if expired {
              state := SendDiscover;
            }
          } else {
            var isOffer := IsAnswer(OFFER);
            if isOffer {
              TakeOffer();
              state := SendRequest;
            }
          }
        case SendRequest =>
          size := SendRequested();
          state := WaitForAck;
        case WaitForAck =>
          if !newdata {
            if expired {
              state := SendDiscover;
            }
          } else {
            var isAck := IsAnswer(ACK);
            if isAck {
              host := offer[..4];
              netmask := offer[4..8];
              router := offer[8..12];
              state := AddressLeased;
            }
          }
        case AddressLeased =>
      }
    }

    method IsAnswer(kind: byte) returns (yes: bool)
      requires Valid() && (Mine(buffer[..]) ==> Readable(buffer[..]))
      ensures yes == Answers(buffer[..], kind)
    {
      yes := false;
      assert buffer[..][4..8] == buffer[4..8];
      if buffer[4..8] == TRANSACTION {
        var messageType := new byte[1];
        var found := GetOption(buffer, HEADER, MSG_TYPE, messageType, 0);
        yes := found && messageType[0] == kind;
        ghost var v := Option(buffer[..], MSG_TYPE);
        assert found ==> v.value == [messageType[..][0]];
      }
    }

    method TakeOffer()
      requires Valid() && Terminated(buffer[..], HEADER) && CopiesFit(buffer[..], 16)
      modifies offer
      ensures offer[..] == Taken(old(offer[..]), buffer[..])
    {
      assert buffer[..][16..20] == buffer[16..20];
      CopyBytes(offer, 0, buffer[16..20]);
      var netmaskFound := GetOption(buffer, HEADER, SUBNET_MASK, offer, 4);
      var routerFound := GetOption(buffer, HEADER, ROUTER, offer, 8);
      var serverFound := GetOption(buffer, HEADER, SERVER_ID, offer, 12);
    }

    /** Writes the next field of a header whose rest is still zero. */
    method WriteField(at: nat, data: seq<byte>, ghost written: seq<byte>, ghost tail: seq<byte>)
      requires at == |written| && at + |data| <= HEADER
      requires buffer[..] == written + Zeros(HEADER - at) + tail
      modifies buffer
      ensures buffer[..] == written + data + Zeros(HEADER - (at + |data|)) + tail
    {
      CopyBytes(buffer, at, data);
    }

    method FillFixed()
      requires Valid()
      modifies buffer
      ensures buffer[..] == Header(host, offer[..], mac) + old(buffer[..])[HEADER..]
    {
      ghost var tail := buffer[..][HEADER..];
      CopyBytes(buffer, 0, Zeros(HEADER));
      buffer[0] := 1;
      buffer[1] := 1;
      buffer[2] := |mac|;
      buffer[3] := 0;
      ghost var w := [1, 1, 6, 0];
      assert buffer[..] == w + Zeros(HEADER - 4) + tail;
      WriteField(4, TRANSACTION, w, tail);
      WriteField(8, [0, 0], w + TRANSACTION, tail);
      WriteField(10, BROADCAST, w + TRANSACTION + [0, 0], tail);
      w := w + TRANSACTION + [0, 0] + BROADCAST;
      WriteField(12, host, w, tail);
      WriteField(16, offer[..4], w + host, tail);
      WriteField(20, offer[12..16], w + host + offer[..4], tail);
      w := w + host + offer[..4] + offer[12..16];
      ZerosSplit(w, 4, HEADER - 24, tail);
      w := w + Zeros(4);
      WriteField(28, mac, w, tail);
      ZerosSplit(w + mac, 202, HEADER - 34, tail);
      WriteField(236, COOKIE, w + mac + Zeros(202), tail);
      assert Zeros(HEADER - 240) == [];
      assert Header(host, offer[..], mac) + [] == Header(host, offer[..], mac);
    }

    /** Writes the fixed header and a message type option; the size of both is returned. */
    method FillHeader(kind: byte) returns (size: nat)
      requires Valid()
      modifies buffer
      ensures size == |Message(kind, host, offer[..], mac, [])| == HEADER + 4
      ensures buffer[..] == Message(kind, host, offer[..], mac, []) + old(buffer[..])[size..]
    {
      ghost var tail := buffer[..][HEADER..];
      FillFixed();
      buffer[HEADER] := MSG_TYPE;
      buffer[HEADER + 1] := 1;
      buffer[HEADER + 2] := kind;
      buffer[HEADER + 3] := END;
      MessageOfType(kind, host, offer[..], mac);
      assert buffer[..] == Header(host, offer[..], mac) + [MSG_TYPE, 1, kind, END] + tail[4..];
      size := HEADER + 4;
    }

    /** Adds an option to the message of `size` bytes being built; what the option writer reports
        brings the size up to date. */
    method AddOption(kind: byte, ghost items: seq<Item>, option: byte, data: seq<byte>, size: nat, ghost was: seq<byte>)
        returns (newSize: nat)
      requires Valid() && AllValid(items) && Item(option, data).Valid() && |data| < 254
      requires size == |Message(kind, host, offer[..], mac, items)| && size + 2 + |data| <= buffer.Length == |was|
      requires buffer[..] == Message(kind, host, offer[..], mac, items) + was[size..]
      modifies buffer
      ensures newSize == |Message(kind, host, offer[..], mac, items + [Item(option, data)])| == size + 2 + |data|
      ensures buffer[..] == Message(kind, host, offer[..], mac, items + [Item(option, data)]) + was[newSize..]
    {
      MessageGrows(kind, host, offer[..], mac, items, Item(option, data), was[size..]);
      var added := SetOption(buffer, HEADER, option, data);
      newSize := size + added;
      assert was[size..][2 + |data|..] == was[newSize..];
    }

    method SendDiscovery() returns (size: nat)
      requires Valid()
      modifies this`host, buffer, offer
      ensures offer[..] == Zeros(16) && host == Zeros(4)
      ensures size == |Discovery(mac)| <= buffer.Length
      ensures buffer[..] == Discovery(mac) + old(buffer[..])[size..]
    {
      ghost var was := buffer[..];
      CopyBytes(offer, 0, Zeros(16));
      assert offer[..] == Zeros(16);
      host := offer[..4];
      assert host == Zeros(4);
      size := FillHeader(DISCOVER);
      var list := [SUBNET_MASK, ROUTER, DNS_SERVER];
      size := AddOption(DISCOVER, [], REQ_LIST, list, size, was);
      assert [] + [Item(REQ_LIST, list)] == [Item(REQ_LIST, list)];
    }

    method SendRequested() returns (size: nat)
      requires Valid()
      modifies buffer
      ensures size == |Requested(host, offer[..], mac)| <= buffer.Length
      ensures buffer[..] == Requested(host, offer[..], mac) + old(buffer[..])[size..]
    {
      ghost var was := buffer[..];
      var address, server := offer[..4], offer[12..16];
      size := FillHeader(REQUEST);
      size := AddOption(REQUEST, [], REQ_IPADDR, address, size, was);
      ghost var items := [] + [Item(REQ_IPADDR, address)];
      assert items == [Item(REQ_IPADDR, address)];
      size := AddOption(REQUEST, items, SERVER_ID, server, size, was);
      assert items + [Item(SERVER_ID, server)] == [Item(REQ_IPADDR, address), Item(SERVER_ID, server)];
      assert offer[..][..4] == address && offer[..][12..16] == server;
    }
  }

  // ---- whole runs, seen from the network ----------------------------------------------------

  datatype Wire = Received(message: seq<byte>) | Sent(message: seq<byte>)

  /** What one callback finds: the buffer, whether it holds a new message, and the timer. */
  datatype Input = Input(packet: seq<byte>, newdata: bool, expired: bool) {
    predicate Valid(state: State) {
      newdata ==> Manageable(state, packet)
    }
  }

  /** The client and all messages so far, with the positions of the discovery it last sent, the
      offer it last accepted, the request it last sent and the agreement it last accepted. */
  datatype Past = Past(client: Client, traffic: seq<Wire>, discoveryAt: nat, offerAt: nat, requestAt: nat, ackAt: nat)

  function AfterCallback(p: Past, mac: Mac, input: Input): Past
    requires input.Valid(p.client.state)
  {
    var (c, sent) := Step(p.client, mac, input.packet, input.newdata, input.expired);
    var arrived := if input.newdata then p.traffic + [Received(input.packet)] else p.traffic;
    var traffic := if sent == [] then arrived else arrived + [Sent(sent)];
    Past(c, traffic,
         if p.client.state == SendDiscover then |arrived| else p.discoveryAt,
         if p.client.state == WaitForOffer && c.state == SendRequest then |p.traffic| else p.offerAt,
         if p.client.state == SendRequest then |arrived| else p.requestAt,
         if p.client.state == WaitForAck && c.state == AddressLeased then |p.traffic| else p.ackAt)
  }

  /** Each message can be dealt with in the state in which it arrives. */
  predicate Possible(p: Past, mac: Mac, inputs: seq<Input>)
    decreases |inputs|
  {
    inputs == [] || (inputs[0].Valid(p.client.state) && Possible(AfterCallback(p, mac, inputs[0]), mac, inputs[1..]))
  }

  function Run(p: Past, mac: Mac, inputs: seq<Input>): Past
    requires Possible(p, mac, inputs)
    decreases |inputs|
  {
    if inputs == [] then p else Run(AfterCallback(p, mac, inputs[0]), mac, inputs[1..])
  }

  /** The discovery at `d` is the last one sent. */
  predicate LastDiscovery(traffic: seq<Wire>, d: nat) {
    && d < |traffic| && traffic[d].Sent? && Option(traffic[d].message, MSG_TYPE) == Some([DISCOVER])
    && forall k :: d < k < |traffic| && traffic[k].Sent? ==> Option(traffic[k].message, MSG_TYPE) != Some([DISCOVER])
  }

  /** An option of four bytes or more begins with this address, if it is there. */
  predicate Names(message: seq<byte>, code: byte, address: Address) {
    Length(message, code) >= 4 ==> Option(message, code).value[..4] == address
  }

  /** An offer with this identifier arrived at `i`, it offers the address, and the client's
      netmask and gateway, where the offer names them, are the offer's. */
  predicate OfferedAt(traffic: seq<Wire>, i: nat, address: Address, netmask: Address, router: Address) {
    && i < |traffic| && traffic[i].Received? && |traffic[i].message| >= HEADER && Answers(traffic[i].message, OFFER)
    && YourIp(traffic[i].message) == address
    && Names(traffic[i].message, SUBNET_MASK, netmask) && Names(traffic[i].message, ROUTER, router)
  }

  /** The client sent a request at `j` for this address, to the server that offered it at `i`. */
  predicate RequestedAt(traffic: seq<Wire>, i: nat, j: nat, address: Address) {
    && i < j < |traffic| && traffic[j].Sent? && Option(traffic[j].message, MSG_TYPE) == Some([REQUEST])
    && Option(traffic[j].message, REQ_IPADDR) == Some(address[..])
    && (Length(traffic[i].message, SERVER_ID) == 4 ==>
          Option(traffic[j].message, SERVER_ID) == Option(traffic[i].message, SERVER_ID))
  }

  predicate AgreedAt(traffic: seq<Wire>, j: nat, k: nat) {
    j < k < |traffic| && traffic[k].Received? && |traffic[k].message| >= HEADER && Answers(traffic[k].message, ACK)
  }

  /** What the client's record holds of the offer it accepted. */
  predicate RecordsOffer(p: Past) {
    var o := p.client.offer;
    && LastDiscovery(p.traffic, p.discoveryAt) && p.discoveryAt < p.offerAt
    && OfferedAt(p.traffic, p.offerAt, o[..4], o[4..8], o[8..12])
    && (Length(p.traffic[p.offerAt].message, SERVER_ID) == 4 ==>
          Option(p.traffic[p.offerAt].message, SERVER_ID).value == o[12..16])
  }

  predicate Inv(p: Past) {
    var c := p.client;
    match c.state
    case SendDiscover => c.host == Zeros(4)
    case WaitForOffer => c.host == Zeros(4) && LastDiscovery(p.traffic, p.discoveryAt)
    case SendRequest => c.host == Zeros(4) && RecordsOffer(p)
    case WaitForAck => c.host == Zeros(4) && RecordsOffer(p) && RequestedAt(p.traffic, p.offerAt, p.requestAt, c.offer[..4])
    case AddressLeased =>
      && RecordsOffer(p) && RequestedAt(p.traffic, p.offerAt, p.requestAt, c.offer[..4])
      && AgreedAt(p.traffic, p.requestAt, p.ackAt)
      && c.host == c.offer[..4] && c.netmask == c.offer[4..8] && c.router == c.offer[8..12]
  }

  /** What a receiver reads in the messages the client sends. */
  lemma DiscoveryReadsBack(mac: Mac)
    ensures Option(Discovery(mac), MSG_TYPE) == Some([DISCOVER])
    ensures Option(Discovery(mac), REQ_LIST) == Some([SUBNET_MASK, ROUTER, DNS_SERVER])
  {
    var list := [Item(REQ_LIST, [SUBNET_MASK, ROUTER, DNS_SERVER])];
    MessageReadsBack(DISCOVER, Zeros(4), Zeros(16), mac, list, []);
    assert Discovery(mac) + [] == Discovery(mac);
    var items := MessageItems(DISCOVER, list);
    assert items[1..] == list && Find(items, REQ_LIST) == Find(items[1..], REQ_LIST);
  }

  /** The fixed header of a BOOTP message as a receiver takes it apart (RFC 2131 figure 1 and table 1):
      a request from an Ethernet station, with its hardware address in the first bytes of the field
      for it, and the addresses given; all other bytes are zero. */
  ghost predicate Asks(m: seq<byte>, ciaddr: Address, yiaddr: Address, siaddr: Address, mac: Mac) {
    && |m| >= 240
    && m[0] == 1 && m[1] == 1 && m[2] == 6 && m[3] == 0
    && m[4..8] == [0x66, 0x54, 0x24, 0x13]
    && m[8..10] == [0, 0] && m[10..12] == [0x80, 0x00]
    && m[12..16] == ciaddr && m[16..20] == yiaddr && m[20..24] == siaddr && m[24..28] == [0, 0, 0, 0]
    && m[28..34] == mac
    && (forall i | 34 <= i < 236 :: m[i] == 0)
    && m[236..240] == [0x63, 0x82, 0x53, 0x63]
  }

  lemma HeaderAsks(host: Address, offer: Offered, mac: Mac)
    ensures Asks(Header(host, offer, mac), host, offer[..4], offer[12..16], mac)
  {
    var first: seq<byte> := [1, 1, 6, 0] + TRANSACTION + [0, 0] + BROADCAST;
    var addresses := host + offer[..4] + offer[12..16] + Zeros(4);
    var h := Header(host, offer, mac);
    assert h == first + addresses + mac + Zeros(202) + COOKIE;
    assert h[..12] == first;
    assert h[4..8] == first[4..8] && h[8..10] == first[8..10] && h[10..12] == first[10..12];
    assert h[12..28] == addresses;
    assert h[12..16] == addresses[0..4] && h[16..20] == addresses[4..8];
    assert h[20..24] == addresses[8..12] && h[24..28] == addresses[12..16];
    assert h[28..34] == mac && h[34..236] == Zeros(202) && h[236..240] == COOKIE;
    forall i | 34 <= i < 236 ensures h[i] == 0 {
      assert h[i] == h[34..236][i - 34];
    }
  }

  lemma AsksPrefix(h: seq<byte>, rest: seq<byte>, ciaddr: Address, yiaddr: Address, siaddr: Address, mac: Mac)
    requires Asks(h, ciaddr, yiaddr, siaddr, mac)
    ensures Asks(h + rest, ciaddr, yiaddr, siaddr, mac)
  {
    var m := h + rest;
    assert forall a, b | 0 <= a <= b <= 240 :: m[a..b] == h[a..b];
  }

  /** A discovery asks for any address, and its hardware address tells who asks. */
  lemma DiscoveryAsks(mac: Mac)
    ensures Asks(Discovery(mac), Zeros(4), Zeros(4), Zeros(4), mac)
  {
    HeaderAsks(Zeros(4), Zeros(16), mac);
    assert Zeros(16)[..4] == Zeros(4) && Zeros(16)[12..16] == Zeros(4);
    var items := MessageItems(DISCOVER, [Item(REQ_LIST, [SUBNET_MASK, ROUTER, DNS_SERVER])]);
    AsksPrefix(Header(Zeros(4), Zeros(16), mac), Encoded(items) + [END], Zeros(4), Zeros(4), Zeros(4), mac);
    assert Discovery(mac) == Header(Zeros(4), Zeros(16), mac) + (Encoded(items) + [END]);
  }

  /** A request names the address offered and the server that offered it in the header as well. */
  lemma RequestAsks(host: Address, offer: Offered, mac: Mac)
    ensures Asks(Requested(host, offer, mac), host, offer[..4], offer[12..16], mac)
  {
    HeaderAsks(host, offer, mac);
    var items := MessageItems(REQUEST, [Item(REQ_IPADDR, offer[..4]), Item(SERVER_ID, offer[12..16])]);
    AsksPrefix(Header(host, offer, mac), Encoded(items) + [END], host, offer[..4], offer[12..16], mac);
    assert Requested(host, offer, mac) == Header(host, offer, mac) + (Encoded(items) + [END]);
  }

  lemma RequestReadsBack(host: Address, offer: Offered, mac: Mac)
    ensures var r := Requested(host, offer, mac);
      && Option(r, MSG_TYPE) == Some([REQUEST]) && Option(r, REQ_IPADDR) == Some(offer[..4])
      && Option(r, SERVER_ID) == Some(offer[12..16])
  {
    var address, server := Item(REQ_IPADDR, offer[..4]), Item(SERVER_ID, offer[12..16]);
    var r := Requested(host, offer, mac);
    MessageReadsBack(REQUEST, host, offer, mac, [address, server], []);
    assert r + [] == r;
    var items := MessageItems(REQUEST, [address, server]);
    assert items[1..] == [address, server] && items[1..][1..] == [server];
    assert Find(items, REQ_IPADDR) == Find(items[1..], REQ_IPADDR);
    assert Find(items, SERVER_ID) == Find(items[1..], SERVER_ID) == Find([server], SERVER_ID);
  }

  /** The record after an offer was taken holds what the offer says; a second router that
      overruns its field is overwritten by the server's address. */
  lemma TakenFields(offer: Offered, message: seq<byte>)
    requires |message| >= HEADER && CopiesFit(message, 16)
    ensures var t := Taken(offer, message);
      && t[..4] == YourIp(message)
      && Names(message, SUBNET_MASK, t[4..8]) && Names(message, ROUTER, t[8..12])
      && (Length(message, SERVER_ID) == 4 ==> Option(message, SERVER_ID).value == t[12..16])
  {
    var mask, router, server := Option(message, SUBNET_MASK), Option(message, ROUTER), Option(message, SERVER_ID);
    var o1 := Overlay(offer, 0, YourIp(message));
    var o2 := Fetched(o1, 4, mask);
    var o3 := Fetched(o2, 8, router);
    OverlaySlices(offer, 0, YourIp(message), 4, 4);
    if mask.Some? {
      OverlaySlices(o1, 4, mask.value, 0, 4);
      assert |mask.value| >= 4 ==> o2[4..8] == o2[4..4 + |mask.value|][..4];
    }
    if router.Some? {
      OverlaySlices(o2, 8, router.value, 0, 4);
      OverlaySlices(o2, 8, router.value, 4, 8);
      assert |router.value| >= 4 ==> o3[8..12] == o3[8..8 + |router.value|][..4];
    }
    if server.Some? {
      OverlaySlices(o3, 12, server.value, 0, 4);
      OverlaySlices(o3, 12, server.value, 4, 8);
      OverlaySlices(o3, 12, server.value, 8, 12);
    }
  }

  /** The byte that ends up just behind the record, if a copy reaches it. */
  function Spilled(message: seq<byte>): byte
    requires !CopiesFit(message, 16)
  {
    if Length(message, SERVER_ID) > 4 then Option(message, SERVER_ID).value[4]
    else if Length(message, ROUTER) > 8 then Option(message, ROUTER).value[8]
    else Option(message, SUBNET_MASK).value[12]
  }

  /** With 255 bytes of memory behind the record no copy can leave the memory; the bytes behind
      the record are safe, whatever they are, exactly when the netmask has at most twelve bytes,
      the routers are at most two and the server has at most four bytes. */
  lemma CopiesStayInside(message: seq<byte>)
    requires Terminated(message, HEADER)
    ensures CopiesFit(message, 16 + 255)
    ensures (forall memory: seq<byte> | |memory| == 16 + 255 :: Copied(memory, message)[16..] == memory[16..])
       <==> Length(message, SUBNET_MASK) <= 12 && Length(message, ROUTER) <= 8 && Length(message, SERVER_ID) <= 4
  {
    LengthBound(message, SUBNET_MASK);
    LengthBound(message, ROUTER);
    LengthBound(message, SERVER_ID);
    if CopiesFit(message, 16) {
      forall memory: seq<byte> | |memory| == 16 + 255 ensures Copied(memory, message)[16..] == memory[16..] {
        CopiesInside(memory, message);
      }
    } else {
      var other: byte := if Spilled(message) == 0 then 1 else 0;
      var memory: seq<byte> := seq(16 + 255, _ => other);
      assert Copied(memory, message)[16] == Spilled(message) != memory[16];
      assert Copied(memory, message)[16..][0] != memory[16..][0];
    }
  }

  lemma CopiesInside(memory: seq<byte>, message: seq<byte>)
    requires |message| >= HEADER && |memory| >= 16 && CopiesFit(message, 16)
    ensures CopiesFit(message, |memory|) && Copied(memory, message)[16..] == memory[16..]
  {
    var mask, router, server := Option(message, SUBNET_MASK), Option(message, ROUTER), Option(message, SERVER_ID);
    var m1 := Overlay(memory, 0, YourIp(message));
    var m2 := Fetched(m1, 4, mask);
    var m3 := Fetched(m2, 8, router);
    OverlaySlices(memory, 0, YourIp(message), 16, |memory|);
    if mask.Some? {
      OverlaySlices(m1, 4, mask.value, 16, |memory|);
    }
    if router.Some? {
      OverlaySlices(m2, 8, router.value, 16, |memory|);
    }
    if server.Some? {
      OverlaySlices(m3, 12, server.value, 16, |memory|);
    }
    var after := Copied(memory, message);
    assert after == Fetched(m3, 12, server);
    assert after[16..|memory|] == memory[16..|memory|];
    assert after[16..] == after[16..|memory|] && memory[16..] == memory[16..|memory|];
  }

  lemma LengthBound(message: seq<byte>, code: byte)
    ensures Length(message, code) < 0x100
  {
    if Terminated(message, HEADER) {
      FoundIsValid(Items(message, HEADER), code);
    }
  }

  lemma {:induction false} FoundIsValid(items: seq<Item>, code: byte)
    requires AllValid(items)
    ensures Find(items, code).Some? ==> |Find(items, code).value| < 0x100
  {
    if items != [] {
      FoundIsValid(items[1..], code);
    }
  }

  /** A record of an offer stays right while no discovery is sent. */
  lemma RecordStaysRight(p: Past, q: Past)
    requires RecordsOffer(p) && q.client.offer == p.client.offer && q.offerAt == p.offerAt && q.discoveryAt == p.discoveryAt
    requires p.traffic <= q.traffic
    requires forall k :: |p.traffic| <= k < |q.traffic| && q.traffic[k].Sent? ==>
               Option(q.traffic[k].message, MSG_TYPE) != Some([DISCOVER])
    ensures RecordsOffer(q)
  {
    assert q.traffic[p.offerAt] == p.traffic[p.offerAt];
    assert q.traffic[p.discoveryAt] == p.traffic[p.discoveryAt];
  }

  /** An offer arrives, or something else, or nothing. */
  lemma OfferStep(p: Past, mac: Mac, input: Input)
    requires input.Valid(p.client.state) && p.client.state == WaitForOffer && Inv(p)
    ensures Inv(AfterCallback(p, mac, input))
  {
    var q := AfterCallback(p, mac, input);
    assert q.traffic[q.discoveryAt] == p.traffic[p.discoveryAt];
    if input.newdata && Answers(input.packet, OFFER) {
      TakenFields(p.client.offer, input.packet);
      assert q.traffic[q.offerAt] == Received(input.packet);
      assert RecordsOffer(q);
    }
  }

  lemma RequestStep(p: Past, mac: Mac, input: Input)
    requires input.Valid(p.client.state) && p.client.state == SendRequest && Inv(p)
    ensures Inv(AfterCallback(p, mac, input))
  {
    var q := AfterCallback(p, mac, input);
    RequestReadsBack(p.client.host, p.client.offer, mac);
    RecordStaysRight(p, q);
    assert q.traffic[q.requestAt] == Sent(Requested(p.client.host, p.client.offer, mac));
  }

  lemma AckStep(p: Past, mac: Mac, input: Input)
    requires input.Valid(p.client.state) && (p.client.state == WaitForAck || p.client.state == AddressLeased) && Inv(p)
    ensures Inv(AfterCallback(p, mac, input))
  {
    var q := AfterCallback(p, mac, input);
    if q.client.state != SendDiscover {
      RecordStaysRight(p, q);
      assert q.traffic[q.requestAt] == p.traffic[p.requestAt];
    }
  }

  lemma StepKeepsInv(p: Past, mac: Mac, input: Input)
    requires input.Valid(p.client.state) && (Inv(p) || p.client.state == SendDiscover)
    ensures Inv(AfterCallback(p, mac, input))
  {
    match p.client.state {
      case SendDiscover => DiscoveryReadsBack(mac);
      case WaitForOffer => OfferStep(p, mac, input);
      case SendRequest => RequestStep(p, mac, input);
      case _ => AckStep(p, mac, input);
    }
  }

  lemma {:induction false} RunKeepsInv(p: Past, mac: Mac, inputs: seq<Input>)
    requires Possible(p, mac, inputs) && Inv(p)
    ensures Inv(Run(p, mac, inputs))
    decreases |inputs|
  {
    if inputs != [] {
      StepKeepsInv(p, mac, inputs[0]);
      RunKeepsInv(AfterCallback(p, mac, inputs[0]), mac, inputs[1..]);
    }
  }

  /** In both states that wait, a callback without a message gives up exactly when the timer has
      expired, and then the next one, whatever it finds, sends a new discovery and forgets what was
      offered before. */
  lemma RetriesExactlyWhenExpired(p: Past, mac: Mac, input: Input, next: Input)
    requires p.client.state == WaitForOffer || p.client.state == WaitForAck
    requires !input.newdata && (next.newdata ==> |next.packet| >= HEADER)
    ensures var q := AfterCallback(p, mac, input);
      && q.traffic == p.traffic
      && (if input.expired then q.client == p.client.(state := SendDiscover) else q.client == p.client)
    ensures input.expired ==>
      var r := AfterCallback(AfterCallback(p, mac, input), mac, next);
      && r.client.state == WaitForOffer && r.client.host == Zeros(4) && r.client.offer == Zeros(16)
      && r.traffic == p.traffic + (if next.newdata then [Received(next.packet)] else []) + [Sent(Discovery(mac))]
  {
    if input.expired {
      Discovers(AfterCallback(p, mac, input), mac, next);
    }
  }

  /** A message that is not the answer waited for is passed over, even if the timer has expired. */
  lemma OthersArePassedOver(p: Past, mac: Mac, input: Input)
    requires p.client.state == WaitForOffer || p.client.state == WaitForAck
    requires input.newdata && input.Valid(p.client.state)
    requires !Mine(input.packet)
      || Option(input.packet, MSG_TYPE) != Some([if p.client.state == WaitForOffer then OFFER else ACK])
    ensures var q := AfterCallback(p, mac, input);
      q.client == p.client && q.traffic == p.traffic + [Received(input.packet)]
  {
  }

  /** Each callback that sends does so whatever it finds, and each answer waited for is accepted. */
  lemma Discovers(p: Past, mac: Mac, input: Input)
    requires p.client.state == SendDiscover && input.Valid(SendDiscover)
    ensures var q := AfterCallback(p, mac, input);
      && q.client == p.client.(state := WaitForOffer, offer := Zeros(16), host := Zeros(4))
      && q.traffic == p.traffic + (if input.newdata then [Received(input.packet)] else []) + [Sent(Discovery(mac))]
  {
  }

  lemma AcceptsOffer(p: Past, mac: Mac, input: Input)
    requires p.client.state == WaitForOffer && input.newdata && input.Valid(WaitForOffer) && Answers(input.packet, OFFER)
    ensures AfterCallback(p, mac, input).client == p.client.(state := SendRequest, offer := Taken(p.client.offer, input.packet))
  {
  }

  lemma Requests(p: Past, mac: Mac, input: Input)
    requires p.client.state == SendRequest && input.Valid(SendRequest)
    ensures var q := AfterCallback(p, mac, input);
      && q.client == p.client.(state := WaitForAck)
      && q.traffic == p.traffic + (if input.newdata then [Received(input.packet)] else [])
                      + [Sent(Requested(p.client.host, p.client.offer, mac))]
  {
  }

  lemma AcceptsAgreement(p: Past, mac: Mac, input: Input)
    requires p.client.state == WaitForAck && input.newdata && input.Valid(WaitForAck) && Answers(input.packet, ACK)
    ensures var o := p.client.offer;
      AfterCallback(p, mac, input).client == Client(AddressLeased, o, o[..4], o[4..8], o[8..12])
  {
  }

  /** With an offer and an agreement the four steps lead to a lease of the address offered, whatever
      the client held before and whatever else the two callbacks that send find. */
  lemma LeaseIsObtained(p: Past, mac: Mac, first: Input, offered: Input, third: Input, agreed: Input)
    requires p.client.state == SendDiscover && first.Valid(SendDiscover) && third.Valid(SendRequest)
    requires offered.newdata && offered.Valid(WaitForOffer) && Answers(offered.packet, OFFER)
    requires agreed.newdata && agreed.Valid(WaitForAck) && Answers(agreed.packet, ACK)
    ensures var p1 := AfterCallback(p, mac, first);
      p1.client.state == WaitForOffer && p1.traffic[|p1.traffic| - 1..] == [Sent(Discovery(mac))]
      && var p2 := AfterCallback(p1, mac, offered);
         p2.client.state == SendRequest && p2.client.host == Zeros(4) && p2.client.offer[..4] == YourIp(offered.packet)
         && var p3 := AfterCallback(p2, mac, third);
            p3.client.state == WaitForAck
            && p3.traffic[|p3.traffic| - 1..] == [Sent(Requested(Zeros(4), p2.client.offer, mac))]
            && var p4 := AfterCallback(p3, mac, agreed);
               p4.client.state == AddressLeased && p4.client.host == YourIp(offered.packet)
               && Names(offered.packet, SUBNET_MASK, p4.client.netmask)
               && Names(offered.packet, ROUTER, p4.client.router)
  {
    hide AfterCallback, Step, Discovery, Requested, Option, Length, Taken, Copied, Names, Readable;
    TakenFields(Zeros(16), offered.packet);
    Discovers(p, mac, first);
    var p1 := AfterCallback(p, mac, first);
    AcceptsOffer(p1, mac, offered);
    var p2 := AfterCallback(p1, mac, offered);
    Requests(p2, mac, third);
    var p3 := AfterCallback(p2, mac, third);
    AcceptsAgreement(p3, mac, agreed);
  }

  /** A lease, once obtained, stays, and nothing more is sent. */
  lemma {:induction false} LeaseStays(p: Past, mac: Mac, inputs: seq<Input>)
    requires p.client.state == AddressLeased && Possible(p, mac, inputs)
    ensures Run(p, mac, inputs).client == p.client
    ensures forall k | |p.traffic| <= k < |Run(p, mac, inputs).traffic| :: Run(p, mac, inputs).traffic[k].Received?
    decreases |inputs|
  {
    if inputs != [] {
      var q := AfterCallback(p, mac, inputs[0]);
      LeaseStays(q, mac, inputs[1..]);
      TrafficGrows(q, mac, inputs[1..]);
    }
  }

  lemma {:induction false} TrafficGrows(p: Past, mac: Mac, inputs: seq<Input>)
    requires Possible(p, mac, inputs)
    ensures p.traffic <= Run(p, mac, inputs).traffic
    decreases |inputs|
  {
    if inputs != [] {
      TrafficGrows(AfterCallback(p, mac, inputs[0]), mac, inputs[1..]);
    }
  }

  /** In every run, from the first discovery on: the host has an address only when one is leased,
      and then the messages on the network show, after the last discovery, an offer of this
      address, after it a request for it to the server that offered it, and after that the
      agreement. */
  lemma LeaseIsBacked(c: Client, mac: Mac, inputs: seq<Input>)
    requires c.state == SendDiscover && inputs != [] && Possible(Past(c, [], 0, 0, 0, 0), mac, inputs)
    ensures var p := Run(Past(c, [], 0, 0, 0, 0), mac, inputs);
      && (p.client.host != Zeros(4) ==> p.client.state == AddressLeased)
      && (p.client.state == AddressLeased ==>
            exists d: nat, i: nat, j: nat, k: nat ::
              && LastDiscovery(p.traffic, d) && d < i
              && OfferedAt(p.traffic, i, p.client.host, p.client.netmask, p.client.router)
              && RequestedAt(p.traffic, i, j, p.client.host) && AgreedAt(p.traffic, j, k))
  {
    var start := Past(c, [], 0, 0, 0, 0);
    StepKeepsInv(start, mac, inputs[0]);
    RunKeepsInv(AfterCallback(start, mac, inputs[0]), mac, inputs[1..]);
  }
}
