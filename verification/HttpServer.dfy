/** The web server's per-connection application: it answers one request with a header and a
    file, a segment at a time, each sent once the previous one was acknowledged. */
module HttpServer {
  import opened Bytes

  datatype State = OpenRequestedFile | SendResponseHeader | SendData | Closing | Closed

  /** The uIP event flags of one callback; `closed` stands for aborted, timed out or closed. */
  datatype Event = Event(closed: bool, connected: bool, acked: bool, rexmit: bool, newdata: bool, poll: bool)

  /** What a callback asks of the TCP stack. */
  datatype Reply = Nothing | Send(data: seq<byte>) | Close | Abort

  /** What is fixed for a connection: the request, the file it names and the texts to send. */
  datatype Site = Site(isGet: bool, found: bool, file: seq<byte>, header: seq<byte>, notFound: seq<byte>, mss: nat) {
    /** A segment can hold the header, and the file fits the 32-bit sizes of the file system. */
    predicate Valid() {
      && 0 < |header| <= mss && 0 < |notFound| <= mss && mss < 0x1_0000
      && |file| < 0x1_0000_0000
    }

    function Response(): seq<byte> {
      if found then header + file else notFound
    }
  }

  /** The connection state the application keeps, and its position in the open file. */
  datatype App = App(current: State, next: State, fileOpen: bool, ackedFilePos: nat, sentChunkSize: nat, filePos: nat)

  // ---- the file system calls --------------------------------------------------------------

  function Min(a: int, b: int): int {
    if a < b then a else b
  }

  /** Moves the position of an open file, never past its end. */
  function Seek(site: Site, app: App, pos: nat): App {
    if app.fileOpen then app.(filePos := Min(pos, |site.file|)) else app
  }

  /** The next bytes of the open file: as many as asked for, fewer only at the end. */
  function ReadChunk(site: Site, app: App): seq<byte> {
    if app.fileOpen && app.filePos <= |site.file|
    then site.file[app.filePos..Min(app.filePos + site.mss, |site.file|)] else []
  }

  // ---- what one callback does, as a function of the state --------------------------------------

  function Opened(site: Site, app: App): App {
    App(SendResponseHeader, SendResponseHeader, site.found, app.ackedFilePos, app.sentChunkSize, if site.found then 0 else app.filePos)
  }

  /** The state once the event flags themselves have been dealt with. */
  function Notified(site: Site, app: App, e: Event): App {
    var a1 := if e.closed then app.(fileOpen := false, current := Closed, next := Closed) else app;
    var a2 := if e.connected then a1.(current := OpenRequestedFile, next := OpenRequestedFile, fileOpen := false,
                                      ackedFilePos := 0, sentChunkSize := 0) else a1;
    var a3 := if e.acked then a2.(ackedFilePos := (a2.ackedFilePos + a2.sentChunkSize) % 0x1_0000_0000, current := a2.next) else a2;
    if e.rexmit then Seek(site, a3, a3.ackedFilePos) else a3
  }

  function Served(site: Site, app: App, e: Event): (App, Reply) {
    if !(e.rexmit || e.acked || e.newdata || e.connected || e.poll) then (app, Nothing)
    else match app.current
      case OpenRequestedFile =>
        if !e.newdata then (app, Nothing)
        else if !site.isGet then (app, Abort)
        else (Opened(site, app), Nothing)
      case SendResponseHeader =>
        if !app.fileOpen then (app.(next := Closing), Send(site.notFound)) else (app.(next := SendData), Send(site.header))
      case SendData =>
        var chunk := ReadChunk(site, app);
        (app.(sentChunkSize := |chunk|, filePos := app.filePos + |chunk|,
              next := if site.mss != |chunk| then Closing else app.next), Send(chunk))
      case Closing => (app.(next := Closed), Close)
      case Closed => (app, Nothing)
  }

  function Step(site: Site, app: App, e: Event): (App, Reply) {
    Served(site, Notified(site, app, e), e)
  }

  /** The application object whose callback the TCP stack runs. */
  class HttpServerApp {
    const site: Site
    var currentState: State
    var nextState: State
    var fileOpen: bool
    var ackedFilePos: nat
    var sentChunkSize: nat
    var filePos: nat

    function AppState(): App
      reads this
    {
      App(currentState, nextState, fileOpen, ackedFilePos, sentChunkSize, filePos)
    }

    /** Nothing initialises the state before the first event: it is whatever memory held. */
    constructor (site: Site, garbage: App)
      ensures this.site == site && AppState() == garbage
    {
      this.site := site;
      currentState, nextState, fileOpen := garbage.current, garbage.next, garbage.fileOpen;
      ackedFilePos, sentChunkSize, filePos := garbage.ackedFilePos, garbage.sentChunkSize, garbage.filePos;
    }

    method Callback(e: Event) returns (reply: Reply)
      modifies this
      ensures (AppState(), reply) == Step(site, old(AppState()), e)
    {
      Notify(e);
      reply := Serve(e);
    }

    /** The event flags, in the order the callback looks at them. */
    method Notify(e: Event)
      modifies this
      ensures AppState() == Notified(site, old(AppState()), e)
    {
      if e.closed {
        fileOpen := false;
        currentState := Closed;
        nextState := Closed;
      }
      if e.connected {
        currentState := OpenRequestedFile;
        nextState := OpenRequestedFile;
        fileOpen := false;
        ackedFilePos := 0;
        sentChunkSize := 0;
      }
      if e.acked {
        ackedFilePos := (ackedFilePos + sentChunkSize) % 0x1_0000_0000;
        currentState := nextState;
      }
      if e.rexmit && fileOpen {
        filePos := Min(ackedFilePos, |site.file|);
      }
    }

    /** The handler of the current state. */
    method Serve(e: Event) returns (reply: Reply)
      modifies this
      ensures (AppState(), reply) == Served(site, old(AppState()), e)
    {
      reply := Nothing;
      if e.rexmit || e.acked || e.newdata || e.connected || e.poll {
        match currentState {
          case OpenRequestedFile => reply := OpenFile(e.newdata);
          case SendResponseHeader => reply := SendHeader();
          case SendData => reply := SendChunk();
          case Closing =>
            reply := Close;
            nextState := Closed;
          case Closed =>
        }
      }
    }

    method OpenFile(newdata: bool) returns (reply: Reply)
      modifies this
      ensures (AppState(), reply) ==
        if !newdata then (old(AppState()), Nothing)
        else if !site.isGet then (old(AppState()), Abort)
        else (Opened(site, old(AppState())), Nothing)
    {
      if !newdata {
        return Nothing;
      }
      if !site.isGet {
        return Abort;
      }
      fileOpen := site.found;
      if fileOpen {
        filePos := 0;
      }
      currentState := SendResponseHeader;
      nextState := SendResponseHeader;
      reply := Nothing;
    }

    method SendHeader() returns (reply: Reply)
      modifies this`nextState
      ensures nextState == if fileOpen then SendData else Closing
      ensures reply == Send(if fileOpen then site.header else site.notFound)
    {
      if !fileOpen {
        nextState := Closing;
        return Send(site.notFound);
      }
      reply := Send(site.header);
      nextState := SendData;
    }

    method SendChunk() returns (reply: Reply)
      modifies this`sentChunkSize, this`filePos, this`nextState
      ensures reply == Send(ReadChunk(site, old(AppState())))
      ensures sentChunkSize == |reply.data| && filePos == old(filePos) + |reply.data|
      ensures nextState == if |reply.data| != site.mss then Closing else old(nextState)
    {
      var chunk := ReadChunk(site, AppState());
      sentChunkSize := |chunk|;
      filePos := filePos + |chunk|;
      reply := Send(chunk);
      if site.mss != sentChunkSize {
        nextState := Closing;
      }
    }
  }

  // ---- the TCP stack around it -------------------------------------------------------------

  datatype Phase = Fresh | Established | FinSent | Over

  /** One connection: the application, what the client has acknowledged, the one segment that
      may be outstanding, and how many acknowledgements arrived. */
  datatype Session = Session(app: App, phase: Phase, acknowledged: seq<byte>, outstanding: seq<byte>, acks: nat)

  /** The events uIP may deliver: acknowledgements and retransmissions only of an outstanding
      segment, polls only without one, request data only before the response has begun, and
      nothing but the end of the connection once it is being closed. */
  predicate Allowed(s: Session, e: Event) {
    match s.phase
    case Fresh => e.connected && !e.closed && !e.acked && !e.rexmit && !e.poll
    case Established =>
      && !e.connected
      && (e.acked ==> s.outstanding != [] && !e.rexmit && !e.poll)
      && (e.rexmit ==> s.outstanding != [] && !e.closed && !e.newdata)
      && (e.poll ==> s.outstanding == [] && !e.closed && !e.newdata)
      && (e.newdata ==> s.outstanding == [] && s.acknowledged == [])
    case FinSent => e.closed && !e.connected && !e.acked && !e.rexmit && !e.newdata && !e.poll
    case Over => false
  }

  /** A retransmission puts as many bytes on the wire as before, taken from what the application
      sends now; a new segment is cut at the segment size; an empty one is not sent. */
  function Deliver(site: Site, s: Session, e: Event): Session {
    var (app, reply) := Step(site, s.app, e);
    var acknowledged := if e.acked then s.acknowledged + s.outstanding else s.acknowledged;
    var outstanding := if e.acked then [] else s.outstanding;
    var sent :=
      if !reply.Send? then outstanding
      else if outstanding == [] then reply.data[..Min(|reply.data|, site.mss)]
      else if e.rexmit then reply.data[..Min(|reply.data|, |outstanding|)]
      else outstanding;
    var phase := if e.closed || reply.Abort? then Over else if reply.Close? then FinSent
                 else if e.connected then Established else s.phase;
    Session(app, phase, acknowledged, sent, if e.acked then s.acks + 1 else s.acks)
  }

  function Start(app: App): Session {
    Session(app, Fresh, [], [], 0)
  }

  predicate AllowedRun(site: Site, s: Session, events: seq<Event>)
    decreases |events|
  {
    events == [] || (Allowed(s, events[0]) && AllowedRun(site, Deliver(site, s, events[0]), events[1..]))
  }

  function Run(site: Site, s: Session, events: seq<Event>): Session
    decreases |events|
  {
    if events == [] then s else Run(site, Deliver(site, s, events[0]), events[1..])
  }

  // ---- what holds in every run ----------------------------------------------------------------

  /** The bytes in `k` full segments. */
  function FullSegments(mss: nat, k: nat): nat {
    if k == 0 then 0 else FullSegments(mss, k - 1) + mss
  }

  /** In the data phase: whole segments were acknowledged and the next piece is on its way. */
  predicate DataInv(site: Site, s: Session) {
    var app := s.app;
    && site.found && app.fileOpen
    && s.acks > 0 && app.ackedFilePos == FullSegments(site.mss, s.acks - 1) <= |site.file|
    && s.acknowledged == site.header + site.file[..app.ackedFilePos]
    && app.sentChunkSize == Min(site.mss, |site.file| - app.ackedFilePos)
    && app.filePos == app.ackedFilePos + app.sentChunkSize
    && s.outstanding == site.file[app.ackedFilePos..app.filePos]
    && app.next == if app.sentChunkSize == site.mss then SendData else Closing
  }

  predicate Inv(site: Site, s: Session)
    requires site.Valid()
  {
    var app := s.app;
    match s.phase
    case Fresh => s.acknowledged == [] && s.outstanding == [] && s.acks == 0
    case Established =>
      (match app.current
       case OpenRequestedFile =>
         && app.next == OpenRequestedFile && s.acknowledged == [] && s.outstanding == [] && s.acks == 0
         && app.ackedFilePos == 0 && app.sentChunkSize == 0
       case SendResponseHeader =>
         && app.fileOpen == site.found && s.acknowledged == [] && s.acks == 0
         && app.ackedFilePos == 0 && app.sentChunkSize == 0 && (app.fileOpen ==> app.filePos == 0)
         && (if s.outstanding == [] then app.next == SendResponseHeader
             else s.outstanding == (if site.found then site.header else site.notFound)
                  && app.next == if site.found then SendData else Closing)
       case SendData => DataInv(site, s)
       case Closing => false
       case Closed => false)
    case FinSent =>
      && s.acknowledged == site.Response() && s.outstanding == []
      && (if site.found then |site.file| % site.mss != 0 && s.acks == |site.file| / site.mss + 2
                               && app.ackedFilePos == |site.file|
          else s.acks == 1)
    case Over => s.acknowledged + s.outstanding <= site.Response()
  }

  /** Full segments add up to a multiple of their size. */
  lemma {:induction false} FullSegmentsTotal(mss: nat, k: nat)
    ensures FullSegments(mss, k) == k * mss
  {
    if k > 0 {
      FullSegmentsTotal(mss, k - 1);
    }
  }

  /** Two successive pieces of the file are one longer piece. */
  lemma PiecesJoin(header: seq<byte>, file: seq<byte>, a: nat, b: nat)
    requires a <= b <= |file|
    ensures header + file[..a] + file[a..b] == header + file[..b]
  {
    assert file[..a] + file[a..b] == file[..b];
  }

  /** The client acknowledged a full segment: the next one goes out. */
  lemma FullSegmentAcked(site: Site, s: Session, e: Event)
    requires site.Valid() && s.phase == Established && s.app.current == SendData
    requires DataInv(site, s) && Allowed(s, e) && !e.closed && e.acked
    requires s.app.sentChunkSize == site.mss
    ensures Inv(site, Deliver(site, s, e))
    ensures Deliver(site, s, e).phase == Established && Deliver(site, s, e).app.current == SendData
    ensures Deliver(site, s, e).app.ackedFilePos == s.app.ackedFilePos + site.mss
  {
    var app := s.app;
    var noted := Notified(site, app, e);
    assert noted == app.(ackedFilePos := app.filePos);
    var chunk := ReadChunk(site, noted);
    assert chunk == site.file[app.filePos..app.filePos + |chunk|];
    var t := Deliver(site, s, e);
    PiecesJoin(site.header, site.file, app.ackedFilePos, app.filePos);
    assert t.acknowledged == s.acknowledged + s.outstanding;
    assert DataInv(site, t);
  }

  /** The client acknowledged the last, short segment: the connection is closed. */
  lemma LastSegmentAcked(site: Site, s: Session, e: Event)
    requires site.Valid() && s.phase == Established && s.app.current == SendData
    requires DataInv(site, s) && Allowed(s, e) && !e.closed && e.acked
    requires s.app.sentChunkSize < site.mss
    ensures Inv(site, Deliver(site, s, e)) && Deliver(site, s, e).phase == FinSent
  {
    var app := s.app;
    FullSegmentsTotal(site.mss, s.acks - 1);
    DivModUnique(|site.file|, site.mss, s.acks - 1, app.sentChunkSize);
    assert app.filePos == |site.file| && site.file[..|site.file|] == site.file;
    assert site.header + site.file[..app.ackedFilePos] + s.outstanding == site.header + site.file;
  }

  /** A retransmission reads the same piece again; a poll finds nothing more to read. */
  lemma SamePieceAgain(site: Site, s: Session, e: Event)
    requires site.Valid() && s.phase == Established && s.app.current == SendData
    requires DataInv(site, s) && Allowed(s, e) && !e.closed && !e.acked
    ensures Inv(site, Deliver(site, s, e))
  {
    var noted := Notified(site, s.app, e);
    if e.rexmit {
      assert noted == s.app.(filePos := s.app.ackedFilePos);
      assert ReadChunk(site, noted) == s.outstanding;
    } else if e.poll {
      assert s.app.sentChunkSize == 0 && ReadChunk(site, noted) == [];
    }
  }

  lemma DataStep(site: Site, s: Session, e: Event)
    requires site.Valid() && s.phase == Established && s.app.current == SendData
    requires DataInv(site, s) && Allowed(s, e) && !e.closed
    ensures Inv(site, Deliver(site, s, e))
  {
    if !e.acked {
      SamePieceAgain(site, s, e);
    } else if s.app.sentChunkSize == site.mss {
      FullSegmentAcked(site, s, e);
    } else {
      LastSegmentAcked(site, s, e);
    }
  }

  lemma HeaderStep(site: Site, s: Session, e: Event)
    requires site.Valid() && s.phase == Established && s.app.current == SendResponseHeader
    requires Inv(site, s) && Allowed(s, e) && !e.closed
    ensures Inv(site, Deliver(site, s, e))
  {
    if e.acked && site.found {
      assert site.file[..0] == [];
    }
  }

  /** Whatever has been acknowledged or is outstanding is the beginning of the response. */
  lemma InvPrefix(site: Site, s: Session)
    requires site.Valid() && Inv(site, s)
    ensures s.acknowledged + s.outstanding <= site.Response()
  {
    if s.phase == Established && s.app.current == SendData {
      var app := s.app;
      assert s.acknowledged + s.outstanding == site.header + site.file[..app.filePos];
    }
  }

  lemma StepKeepsInv(site: Site, s: Session, e: Event)
    requires site.Valid() && Inv(site, s) && Allowed(s, e)
    ensures Inv(site, Deliver(site, s, e))
  {
    if s.phase == Established {
      InvPrefix(site, s);
      if e.closed {
        assert s.acknowledged + s.outstanding == s.acknowledged + s.outstanding + [];
      } else if s.app.current == SendData {
        DataStep(site, s, e);
      } else if s.app.current == SendResponseHeader {
        HeaderStep(site, s, e);
      }
    }
  }

  lemma {:induction false} RunKeepsInv(site: Site, s: Session, events: seq<Event>)
    requires site.Valid() && Inv(site, s) && AllowedRun(site, s, events)
    ensures Inv(site, Run(site, s, events))
    decreases |events|
  {
    if events != [] {
      StepKeepsInv(site, s, events[0]);
      RunKeepsInv(site, Deliver(site, s, events[0]), events[1..]);
    }
  }

  /** In every run, however often segments are retransmitted: the client has received, in order
      and once, the beginning of the response; in the data phase the acknowledged position is
      the number of acknowledged file bytes; and the server closes only a finished response. */
  lemma ResponseIsPrefix(site: Site, garbage: App, events: seq<Event>)
    requires site.Valid() && AllowedRun(site, Start(garbage), events)
    ensures var s := Run(site, Start(garbage), events);
      && s.acknowledged + s.outstanding <= site.Response()
      && (s.phase == FinSent ==> s.acknowledged == site.Response())
      && (s.phase == Established && s.app.current == SendData ==>
            s.app.ackedFilePos == |s.acknowledged| - |site.header|)
  {
    RunKeepsInv(site, Start(garbage), events);
    InvPrefix(site, Run(site, Start(garbage), events));
  }

  /** What a retransmission puts on the wire is exactly the outstanding segment. */
  lemma RetransmissionRepeats(site: Site, s: Session, e: Event)
    requires site.Valid() && Inv(site, s) && Allowed(s, e) && e.rexmit
    ensures Step(site, s.app, e).1 == Send(s.outstanding)
    ensures Deliver(site, s, e).outstanding == s.outstanding
  {
  }

  // ---- the server as its client sees it ----------------------------------------------------------

  /** How far a connection is: before the request, with the request read, with `k` segments of the
      response acknowledged and the next one sent, and after the response. */
  datatype Stage = Unconnected | Requesting | Ready | Sending(k: nat) | Finished | Gone

  /** Segment `k` of the response: the header, then the file cut at the segment size, or the
      not-found text alone. */
  function Segment(site: Site, k: nat): seq<byte> {
    if k == 0 then (if site.found then site.header else site.notFound)
    else
      var from := FullSegments(site.mss, k - 1);
      if site.found && from <= |site.file| then site.file[from..Min(from + site.mss, |site.file|)] else []
  }

  /** Does the acknowledgement of segment `k` end the response? */
  predicate Ends(site: Site, k: nat) {
    if site.found then k > 0 && |Segment(site, k)| < site.mss else k == 0
  }

  /** The segments before segment `k`. */
  function SegmentsBefore(site: Site, k: nat): seq<byte> {
    if k == 0 then [] else SegmentsBefore(site, k - 1) + Segment(site, k - 1)
  }

  /** The stage after an event: what a server should do, in terms of segments only. */
  function NextStage(site: Site, stage: Stage, e: Event): Stage {
    if e.closed then Gone
    else match stage
      case Unconnected => if !e.newdata then Requesting else if site.isGet then Ready else Gone
      case Requesting => if !e.newdata then Requesting else if site.isGet then Ready else Gone
      case Ready => if e.newdata || e.poll then Sending(0) else Ready
      case Sending(k) => if !e.acked then Sending(k) else if Ends(site, k) then Finished else Sending(k + 1)
      case Finished => Finished
      case Gone => Gone
  }

  function StageAfter(site: Site, stage: Stage, events: seq<Event>): Stage
    decreases |events|
  {
    if events == [] then stage else StageAfter(site, NextStage(site, stage, events[0]), events[1..])
  }

  /** What a stage means for the connection and the bytes on it. */
  predicate Shows(site: Site, stage: Stage, s: Session) {
    match stage
    case Unconnected => s.phase == Fresh && s.acknowledged == [] && s.outstanding == []
    case Requesting => s.phase == Established && s.acknowledged == [] && s.outstanding == []
    case Ready => s.phase == Established && s.acknowledged == [] && s.outstanding == []
    case Sending(k) =>
      s.phase == Established && s.acknowledged == SegmentsBefore(site, k) && s.outstanding == Segment(site, k)
    case Finished => s.phase == FinSent && s.acknowledged == site.Response() && s.outstanding == []
    case Gone => s.phase == Over
  }

  /** The stage that a session of the model is in. */
  function StageOf(s: Session): Stage {
    match s.phase
    case Fresh => Unconnected
    case FinSent => Finished
    case Over => Gone
    case Established =>
      match s.app.current
      case OpenRequestedFile => Requesting
      case SendResponseHeader => if s.outstanding == [] then Ready else Sending(0)
      case _ => Sending(s.acks)
  }

  lemma {:induction false} BeforeSegment(site: Site, k: nat)
    requires site.Valid() && site.found && k > 0 && FullSegments(site.mss, k - 1) <= |site.file|
    ensures SegmentsBefore(site, k) == site.header + site.file[..FullSegments(site.mss, k - 1)]
  {
    if k == 1 {
      assert SegmentsBefore(site, 0) == [];
    } else {
      BeforeSegment(site, k - 1);
      PiecesJoin(site.header, site.file, FullSegments(site.mss, k - 2), FullSegments(site.mss, k - 1));
    }
  }

  /** In the data phase the outstanding bytes are the segment numbered by the acknowledgements. */
  lemma DataSegment(site: Site, s: Session)
    requires site.Valid() && DataInv(site, s)
    ensures s.outstanding == Segment(site, s.acks) && s.acknowledged == SegmentsBefore(site, s.acks)
    ensures Ends(site, s.acks) <==> s.app.sentChunkSize < site.mss
  {
    BeforeSegment(site, s.acks);
  }

  lemma InvShows(site: Site, s: Session)
    requires site.Valid() && Inv(site, s)
    ensures Shows(site, StageOf(s), s)
  {
    if s.phase == Established && s.app.current == SendData {
      DataSegment(site, s);
    } else if s.phase == Established {
      assert SegmentsBefore(site, 0) == [];
    }
  }

  lemma DataFollows(site: Site, s: Session, e: Event)
    requires site.Valid() && s.phase == Established && s.app.current == SendData
    requires DataInv(site, s) && Allowed(s, e) && !e.closed
    ensures StageOf(Deliver(site, s, e)) == NextStage(site, StageOf(s), e)
  {
    hide Segment, Ends;
    DataSegment(site, s);
    if e.acked && s.app.sentChunkSize == site.mss {
      FullSegmentAcked(site, s, e);
    } else if e.acked {
      LastSegmentAcked(site, s, e);
    }
  }

  /** Every step of the application is the step that the segments call for. */
  lemma StepFollows(site: Site, s: Session, e: Event)
    requires site.Valid() && Inv(site, s) && Allowed(s, e)
    ensures StageOf(Deliver(site, s, e)) == NextStage(site, StageOf(s), e)
  {
    if s.phase == Established && s.app.current == SendData && !e.closed {
      DataFollows(site, s, e);
    }
  }

  lemma {:induction false} RunFollows(site: Site, s: Session, events: seq<Event>)
    requires site.Valid() && Inv(site, s) && AllowedRun(site, s, events)
    ensures StageOf(Run(site, s, events)) == StageAfter(site, StageOf(s), events)
    decreases |events|
  {
    if events != [] {
      StepFollows(site, s, events[0]);
      StepKeepsInv(site, s, events[0]);
      RunFollows(site, Deliver(site, s, events[0]), events[1..]);
    }
  }

  /** In every run the bytes on the wire and the fate of the connection are those that the events
      call for, segment by segment: the request is answered as soon as there is a chance to send, a
      segment is replaced by the next one when it is acknowledged and only then, the last one ends
      the connection, and nothing else ends it but the client and a request that is not a GET. */
  lemma ServesInSegments(site: Site, garbage: App, events: seq<Event>)
    requires site.Valid() && AllowedRun(site, Start(garbage), events)
    ensures Shows(site, StageAfter(site, Unconnected, events), Run(site, Start(garbage), events))
  {
    RunFollows(site, Start(garbage), events);
    RunKeepsInv(site, Start(garbage), events);
    InvShows(site, Run(site, Start(garbage), events));
  }

  /** The connection is torn down exactly when it is closed from outside or a request arrives that
      is not a GET. */
  lemma AbortsExactlyWhenNotGet(site: Site, garbage: App, events: seq<Event>, e: Event)
    requires site.Valid() && AllowedRun(site, Start(garbage), events)
    requires Allowed(Run(site, Start(garbage), events), e)
    ensures var stage := StageAfter(site, Unconnected, events);
      (Deliver(site, Run(site, Start(garbage), events), e).phase == Over) ==
        (e.closed || (!site.isGet && e.newdata && (stage == Unconnected || stage == Requesting)))
  {
    var s := Run(site, Start(garbage), events);
    RunFollows(site, Start(garbage), events);
    RunKeepsInv(site, Start(garbage), events);
    StepFollows(site, s, e);
    StepKeepsInv(site, s, e);
    InvShows(site, Deliver(site, s, e));
  }

  /** Once the request has been read, the next event that lets the server send, be it a poll or
      more data from the client, makes it send the header or the not-found text. */
  lemma HeaderIsSent(site: Site, garbage: App, events: seq<Event>, e: Event)
    requires site.Valid() && AllowedRun(site, Start(garbage), events)
    requires StageAfter(site, Unconnected, events) == Ready
    requires Allowed(Run(site, Start(garbage), events), e) && !e.closed && (e.newdata || e.poll)
    ensures var t := Deliver(site, Run(site, Start(garbage), events), e);
      && t.phase == Established && t.acknowledged == []
      && t.outstanding == if site.found then site.header else site.notFound
  {
    var s := Run(site, Start(garbage), events);
    RunFollows(site, Start(garbage), events);
    RunKeepsInv(site, Start(garbage), events);
    StepFollows(site, s, e);
    StepKeepsInv(site, s, e);
    InvShows(site, Deliver(site, s, e));
    assert SegmentsBefore(site, 0) == [];
  }

  /** No stage of a connection without a GET lets a byte out. */
  predicate Unanswered(s: Session) {
    && s.acknowledged == [] && s.outstanding == []
    && (s.phase == Established ==> s.app.current == OpenRequestedFile)
  }

  lemma {:induction false} StaysUnanswered(site: Site, s: Session, events: seq<Event>)
    requires site.Valid() && !site.isGet && Inv(site, s) && Unanswered(s) && AllowedRun(site, s, events)
    ensures Unanswered(Run(site, s, events))
    decreases |events|
  {
    if events != [] {
      StepKeepsInv(site, s, events[0]);
      StaysUnanswered(site, Deliver(site, s, events[0]), events[1..]);
    }
  }

  /** A connection whose request is not a GET never gets a byte. */
  lemma OnlyGetIsAnswered(site: Site, garbage: App, events: seq<Event>)
    requires site.Valid() && !site.isGet && AllowedRun(site, Start(garbage), events)
    ensures var s := Run(site, Start(garbage), events); s.acknowledged == [] && s.outstanding == []
  {
    StaysUnanswered(site, Start(garbage), events);
  }

  const ACKED := Event(false, false, true, false, false, false)

  /** A run of one event and then the others. */
  lemma RunCons(site: Site, s: Session, e: Event, rest: seq<Event>)
    requires Allowed(s, e) && AllowedRun(site, Deliver(site, s, e), rest)
    ensures AllowedRun(site, s, [e] + rest)
    ensures Run(site, s, [e] + rest) == Run(site, Deliver(site, s, e), rest)
  {
    assert ([e] + rest)[1..] == rest;
  }

  /** While acknowledgements arrive, a file that ends in a short segment is sent to its end. */
  lemma {:induction false} AcknowledgeAll(site: Site, s: Session) returns (events: seq<Event>)
    requires site.Valid() && s.phase == Established && s.app.current == SendData && DataInv(site, s)
    requires |site.file| % site.mss != 0
    ensures AllowedRun(site, s, events) && Run(site, s, events).phase == FinSent
    decreases |site.file| - s.app.ackedFilePos
  {
    if s.app.sentChunkSize == 0 {
      FullSegmentsTotal(site.mss, s.acks - 1);
      DivModUnique(|site.file|, site.mss, s.acks - 1, 0);
      assert false;
    }
    var t := Deliver(site, s, ACKED);
    var rest := [];
    if s.app.sentChunkSize == site.mss {
      FullSegmentAcked(site, s, ACKED);
      rest := AcknowledgeAll(site, t);
    } else {
      LastSegmentAcked(site, s, ACKED);
    }
    RunCons(site, s, ACKED, rest);
    events := [ACKED] + rest;
  }

  /** The run in which nothing is lost, up to the acknowledged header. */
  lemma Opening(site: Site, garbage: App) returns (events: seq<Event>)
    requires site.Valid() && site.isGet
    ensures AllowedRun(site, Start(garbage), events)
    ensures var s := Run(site, Start(garbage), events);
      if site.found then s.phase == Established && s.app.current == SendData && DataInv(site, s)
      else s.phase == FinSent
  {
    var connect := Event(false, true, false, false, false, false);
    var request := Event(false, false, false, false, true, false);
    var poll := Event(false, false, false, false, false, true);
    var s0 := Start(garbage);
    var s1 := Deliver(site, s0, connect);
    var s2 := Deliver(site, s1, request);
    var s3 := Deliver(site, s2, poll);
    StepKeepsInv(site, s0, connect);
    StepKeepsInv(site, s1, request);
    StepKeepsInv(site, s2, poll);
    assert s3.outstanding == if site.found then site.header else site.notFound;
    StepKeepsInv(site, s3, ACKED);
    RunCons(site, s3, ACKED, []);
    RunCons(site, s2, poll, [ACKED]);
    RunCons(site, s1, request, [poll] + [ACKED]);
    RunCons(site, s0, connect, [request] + ([poll] + [ACKED]));
    events := [connect] + ([request] + ([poll] + [ACKED]));
  }

  lemma {:induction false} RunAppend(site: Site, s: Session, first: seq<Event>, rest: seq<Event>)
    requires AllowedRun(site, s, first) && AllowedRun(site, Run(site, s, first), rest)
    ensures AllowedRun(site, s, first + rest)
    ensures Run(site, s, first + rest) == Run(site, Run(site, s, first), rest)
    decreases |first|
  {
    if first == [] {
      assert first + rest == rest;
    } else {
      RunAppend(site, Deliver(site, s, first[0]), first[1..], rest);
      assert first + rest == [first[0]] + (first[1..] + rest);
      RunCons(site, s, first[0], first[1..] + rest);
    }
  }

  /** The server ever closes the connection of a GET request by itself exactly when the file's
      length is not a multiple of the segment size (or there is no file): after a last full
      segment it waits to be polled for data that does not exist. */
  lemma ClosesExactlyWhenLastSegmentIsShort(site: Site, garbage: App)
    requires site.Valid() && site.isGet
    ensures (exists events :: AllowedRun(site, Start(garbage), events) && Run(site, Start(garbage), events).phase == FinSent)
       <==> (site.found ==> |site.file| % site.mss != 0)
  {
    forall events | AllowedRun(site, Start(garbage), events) && Run(site, Start(garbage), events).phase == FinSent
      ensures site.found ==> |site.file| % site.mss != 0
    {
      RunKeepsInv(site, Start(garbage), events);
    }
    if site.found ==> |site.file| % site.mss != 0 {
      var events := Opening(site, garbage);
      if site.found {
        var more := AcknowledgeAll(site, Run(site, Start(garbage), events));
        RunAppend(site, Start(garbage), events, more);
        events := events + more;
      }
      assert AllowedRun(site, Start(garbage), events) && Run(site, Start(garbage), events).phase == FinSent;
    }
  }

  lemma AcksBound(site: Site, s: Session)
    requires site.Valid() && s.acks > 0
    requires FullSegments(site.mss, s.acks - 1) <= |site.file|
    ensures s.acks <= |site.file| / site.mss + 1
  {
    FullSegmentsTotal(site.mss, s.acks - 1);
    QuotientBound(s.acks - 1, site.mss, |site.file|);
  }

  /** It closes with the acknowledgement after that of the header and the full segments, neither
      earlier nor later. */
  lemma AcksUntilClose(site: Site, garbage: App, events: seq<Event>)
    requires site.Valid() && site.found && AllowedRun(site, Start(garbage), events)
    ensures var s := Run(site, Start(garbage), events);
      && (s.phase == FinSent ==> s.acks == |site.file| / site.mss + 2)
      && (s.phase == Established ==> s.acks <= |site.file| / site.mss + 1)
  {
    var s := Run(site, Start(garbage), events);
    RunKeepsInv(site, Start(garbage), events);
    if s.phase == Established && s.app.current == SendData {
      AcksBound(site, s);
    } else if s.phase == Established {
      assert s.acks == 0;
    }
  }

  lemma QuotientBound(k: nat, m: nat, n: nat)
    requires m > 0 && k * m <= n
    ensures k <= n / m
  {
    assert n == n / m * m + n % m;
    MultipleBound(k - n / m, m);
  }
}
