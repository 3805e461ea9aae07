/** One AT45DB642D dataflash IC, seen from its SPI pins: opcode, three address bytes and
    data while chip select is low, internal transfers started by the rising edge of chip
    select and finishing some unknown number of SPI transfers later. */
module DataflashChip {
  import opened Bytes

  const PAGE_SIZE := 1024
  const PAGES := 8192

  const CMD_GETSTATUS: byte := 0xD7
  const CMD_MAINMEMTOBUFF1: byte := 0x53
  const CMD_MAINMEMTOBUFF2: byte := 0x55
  const CMD_MAINMEMPAGEREAD: byte := 0xD2
  const CMD_BUFF1WRITE: byte := 0x84
  const CMD_BUFF2WRITE: byte := 0x87
  const CMD_BUFF1TOMAINMEMWITHERASE: byte := 0x83
  const CMD_BUFF2TOMAINMEMWITHERASE: byte := 0x86
  const STATUS_READY: byte := 0x80

  type Page = s: seq<byte> | |s| == PAGE_SIZE witness seq(PAGE_SIZE, _ => 0)
  type PageIndex = p: int | 0 <= p < PAGES
  type Memory = m: seq<Page> | |m| == PAGES ghost witness BlankMemory()

  ghost function BlankMemory(): (m: seq<Page>)
    ensures |m| == PAGES
  {
    var blank: Page := seq(PAGE_SIZE, _ => 0);
    seq(PAGES, _ => blank)
  }

  datatype Buffer = Buffer1 | Buffer2

  /** What the chip does in the background; `left` bounds the SPI transfers until it is done. */
  datatype Activity =
    | Idle
    | Programming(source: Buffer, page: PageIndex, left: nat)
    | Loading(page: PageIndex, target: Buffer, left: nat)

  /** The bytes received since chip select went low. */
  datatype Command =
    | NoCommand
    | Opcode(op: byte)
    | Address1(op: byte, high: byte)
    | Address2(op: byte, high: byte, middle: byte)
    | Addressed(op: byte, page: PageIndex, offset: nat)
    | ReadDelay(page: PageIndex, offset: nat, left: nat)
    | Reading(page: PageIndex, offset: nat)

  /** `violated` records, for good, a use the device does not allow: starting an internal
      transfer or reading main memory while busy, or touching the buffer in use. */
  datatype Chip = Chip(memory: Memory, buffer1: Page, buffer2: Page, activity: Activity, command: Command, violated: bool)
  {
    function Buf(b: Buffer): Page {
      if b.Buffer1? then buffer1 else buffer2
    }

    function WithBuf(b: Buffer, contents: Page): Chip {
      if b.Buffer1? then this.(buffer1 := contents) else this.(buffer2 := contents)
    }

    /** Nothing but buffer `b` and the command in progress differs. */
    predicate OnlyBufDiffers(b: Buffer, other: Chip) {
      && memory == other.memory
      && (b.Buffer1? ==> buffer2 == other.buffer2)
      && (b.Buffer2? ==> buffer1 == other.buffer1)
      && violated == other.violated
    }
  }

  function DecodePage(high: byte, middle: byte): PageIndex {
    high * 32 + middle / 8
  }

  function DecodeOffset(middle: byte, low: byte): nat {
    (middle % 8) * 256 + low
  }

  predicate WritesBuffer(op: byte) {
    op == CMD_BUFF1WRITE || op == CMD_BUFF2WRITE
  }

  function BufferOf(op: byte): Buffer {
    if op in {CMD_BUFF1WRITE, CMD_MAINMEMTOBUFF1, CMD_BUFF1TOMAINMEMWITHERASE} then Buffer1 else Buffer2
  }

  predicate Uses(a: Activity, b: Buffer) {
    match a
    case Idle => false
    case Programming(source, _, _) => source == b
    case Loading(_, target, _) => target == b
  }

  /** Is the next byte transfer one the chip cannot serve while it does `activity`? */
  predicate Clashes(command: Command, activity: Activity) {
    match command
    case Addressed(op, _, _) => WritesBuffer(op) && Uses(activity, BufferOf(op))
    case Reading(_, _) => activity != Idle
    case _ => false
  }

  function NextCommand(command: Command, b: byte): Command {
    match command
    case NoCommand => Opcode(b)
    case Opcode(op) => if op == CMD_GETSTATUS then command else Address1(op, b)
    case Address1(op, high) => Address2(op, high, b)
    case Address2(op, high, middle) =>
      var page, offset := DecodePage(high, middle), DecodeOffset(middle, b);
      if op == CMD_MAINMEMPAGEREAD then ReadDelay(page, offset, 4) else Addressed(op, page, offset)
    case ReadDelay(page, offset, left) =>
      if left <= 1 then Reading(page, offset) else ReadDelay(page, offset, left - 1)
    case Reading(page, offset) => Reading(page, (offset + 1) % PAGE_SIZE)
    case Addressed(op, page, offset) =>
      if WritesBuffer(op) then Addressed(op, page, (offset + 1) % PAGE_SIZE) else command
  }

  predicate FillsBuffer(command: Command) {
    command.Addressed? && WritesBuffer(command.op)
  }

  /** The chip after one byte `b` shifted in while it is selected. */
  function Clock(c: Chip, b: byte): Chip {
    var stepped := c.(command := NextCommand(c.command, b),
                      violated := c.violated || Clashes(c.command, c.activity));
    if FillsBuffer(c.command) then
      var buf := BufferOf(c.command.op);
      stepped.WithBuf(buf, c.Buf(buf)[c.command.offset % PAGE_SIZE := b])
    else stepped
  }

  /** The byte the chip shifts out during the same transfer. */
  function Output(c: Chip): byte {
    match c.command
    case Opcode(op) => if op == CMD_GETSTATUS && c.activity.Idle? then STATUS_READY else 0
    case Reading(page, offset) => c.memory[page][offset % PAGE_SIZE]
    case _ => 0
  }

  /** Does the rising edge of chip select start an internal transfer? */
  predicate Starts(command: Command) {
    command.Addressed? && command.op in {CMD_MAINMEMTOBUFF1, CMD_MAINMEMTOBUFF2,
                                         CMD_BUFF1TOMAINMEMWITHERASE, CMD_BUFF2TOMAINMEMWITHERASE}
  }

  function Started(command: Command, duration: nat): Activity
    requires Starts(command)
  {
    if command.op in {CMD_MAINMEMTOBUFF1, CMD_MAINMEMTOBUFF2}
    then Loading(command.page, BufferOf(command.op), duration)
    else Programming(BufferOf(command.op), command.page, duration)
  }

  /** The chip after chip select rises; an internal transfer will take `duration`. */
  function Release(c: Chip, duration: nat): Chip {
    if !Starts(c.command) then c.(command := NoCommand)
    else if c.activity != Idle then c.(command := NoCommand, violated := true)
    else c.(command := NoCommand, activity := Started(c.command, duration))
  }

  /** The chip once the internal transfer under way, if any, has finished. */
  function Settled(c: Chip): Chip {
    match c.activity
    case Idle => c
    case Programming(source, page, _) => c.(memory := c.memory[page := c.Buf(source)], activity := Idle)
    case Loading(page, target, _) => c.WithBuf(target, c.memory[page]).(activity := Idle)
  }

  lemma SettledIs(c: Chip)
    ensures Settled(c).activity.Idle? && Settled(c).command == c.command && Settled(c).violated == c.violated
  {
  }

  /** The chip one SPI transfer time later. */
  function Tick(c: Chip): Chip {
    match c.activity
    case Idle => c
    case Programming(source, page, left) =>
      if left == 0 then Settled(c) else c.(activity := Programming(source, page, left - 1))
    case Loading(page, target, left) =>
      if left == 0 then Settled(c) else c.(activity := Loading(page, target, left - 1))
  }

  function TimeLeft(a: Activity): nat {
    if a.Idle? then 0 else a.left + 1
  }

  /** `after` is `before` some time later: finished, or the same transfer still under way. */
  ghost predicate Calmer(before: Activity, after: Activity) {
    || after.Idle?
    || (after.Programming? && before.Programming? && after.source == before.source && after.page == before.page)
    || (after.Loading? && before.Loading? && after.target == before.target && after.page == before.page)
  }

  /** `after` is the internal transfer `started`, still under way. */
  ghost predicate Runs(started: Activity, after: Activity) {
    !after.Idle? && Calmer(started, after)
  }

  // ---- time passing and use between transfers keep the settled view -------------------

  lemma TickKeepsSettled(c: Chip)
    ensures Settled(Tick(c)) == Settled(c)
    ensures Calmer(c.activity, Tick(c).activity)
    ensures Tick(c).command == c.command && Tick(c).violated == c.violated
    ensures TimeLeft(c.activity) > 0 ==> TimeLeft(Tick(c).activity) < TimeLeft(c.activity)
  {
  }

  /** The chip after `n` transfers with other chips. */
  function Ticked(c: Chip, n: nat): Chip
    decreases n
  {
    if n == 0 then c else Ticked(Tick(c), n - 1)
  }

  /** However many transfers follow, an internal transfer that takes longer is still under way. */
  lemma {:induction false} LongerTransferOutlasts(c: Chip, n: nat)
    requires !c.activity.Idle? && n <= c.activity.left
    ensures Ticked(c, n) == c.(activity := c.activity.(left := c.activity.left - n))
    decreases n
  {
    if n > 0 {
      LongerTransferOutlasts(Tick(c), n - 1);
    }
  }

  /** Writing one buffer while the other one is in use. */
  lemma WriteSettles(c: Chip, buf: Buffer, contents: Page)
    requires !Uses(c.activity, buf)
    ensures Settled(c.WithBuf(buf, contents)) == Settled(c).WithBuf(buf, contents)
    ensures Settled(c).Buf(buf) == c.Buf(buf)
  {
  }

  lemma BookkeepingSettles(c: Chip, command: Command)
    ensures Settled(c.(command := command)) == Settled(c).(command := command)
  {
  }

  /** A transfer that does not clash has the same effect before and after the background
      operation finishes: the double buffering of the chip. */
  lemma ClockSettles(c: Chip, b: byte)
    requires !Clashes(c.command, c.activity)
    ensures Settled(Clock(c, b)) == Clock(Settled(c), b)
    ensures Clock(c, b).activity == c.activity
  {
    var stepped := c.(command := NextCommand(c.command, b));
    BookkeepingSettles(c, NextCommand(c.command, b));
    if FillsBuffer(c.command) {
      var buf := BufferOf(c.command.op);
      WriteSettles(stepped, buf, c.Buf(buf)[c.command.offset % PAGE_SIZE := b]);
    }
  }

  /** Ending a command while idle and waiting is carrying the command out at once. */
  function Carried(c: Chip): Chip {
    Settled(Release(c, 0))
  }

  lemma ReleaseSettles(c: Chip, duration: nat)
    requires Starts(c.command) ==> c.activity.Idle?
    ensures Settled(Release(c, duration)) == Carried(Settled(c))
    ensures !Starts(c.command) ==> Release(c, duration).activity == c.activity
  {
  }

  /** A command that starts nothing ends without effect. */
  lemma CarriedPlain(c: Chip)
    requires !Starts(c.command) && c.activity.Idle?
    ensures Carried(c) == c.(command := NoCommand)
  {
  }
}
