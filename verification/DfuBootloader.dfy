/** The DFU class bootloader: DFU 1.1 requests carrying a vendor command layer. */
module DfuBootloader {
  import opened Bytes
  import opened AvrFlash
  import opened DfuProgramming

  const DFU_IDLE: byte := 2
  const DFU_DNLOAD_IDLE: byte := 5
  const DFU_UPLOAD_IDLE: byte := 9
  const DFU_ERROR: byte := 10

  const STATUS_OK: byte := 0
  const ERR_WRITE: byte := 3
  const ERR_CHECK_ERASED: byte := 5

  const COMMAND_PROG_START: byte := 0x01
  const COMMAND_DISP_DATA: byte := 0x03
  const COMMAND_WRITE: byte := 0x04
  const COMMAND_READ: byte := 0x05
  const COMMAND_CHANGE_BASE_ADDR: byte := 0x06

  const EEPROM_SIZE := 4096

  /** The last command received: its byte, its parameters and the data bytes still to come. */
  datatype Command = Command(op: byte, data: seq<byte>, dataSize: word)

  /** Everything the bootloader keeps in variables, which is everything but the memories. */
  datatype Regs = Regs(isSecure: bool, runBootloader: bool, waitForExit: bool, dfuState: byte, dfuStatus: byte,
                       sent: Command, responseByte: byte, appStart: word, flash64KBPage: byte,
                       startAddr: word, endAddr: word)

  /** A request with its wLength. A download brings a first packet, whose bytes are the command
      and its parameters, and the stream that follows the filler bytes, as words and as bytes. */
  datatype Request =
    | DnLoad(wLength: word, packet: seq<byte>, words: nat -> bv16, bytes: nat -> byte)
    | UpLoad(wLength: word)
    | GetStatus(wLength: word)
    | ClrStatus(wLength: word)
    | GetState(wLength: word)
    | AbortRequest(wLength: word)
    | OtherRequest(wLength: word)

  /** What is sent back to the host: bytes, then flash words. */
  datatype Reply = Reply(bytes: seq<byte>, words: seq<bv16>)

  const SILENCE := Reply([], [])

  predicate Shape(r: Regs) {
    |r.sent.data| == 5
  }

  // ---- the command layer -----------------------------------------------------------------------

  /** Only the chip erase and the information commands pass while the device is secure. */
  predicate Permitted(r: Regs)
    requires Shape(r)
  {
    !r.isSecure || (r.sent.op == COMMAND_WRITE && r.sent.data[0] == 0x00 && r.sent.data[1] == 0xFF) || r.sent.op == COMMAND_READ
  }

  predicate IsErase(r: Regs)
    requires Shape(r)
  {
    r.sent.op == COMMAND_WRITE && r.sent.data[0] == 0x00 && r.sent.data[1] == 0xFF
  }

  function Word16(high: int, low: int): word
    requires 0 <= high < 256 && 0 <= low < 256
  {
    high * 256 + low
  }

  function WithAddresses(r: Regs): Regs
    requires Shape(r)
  {
    r.(startAddr := Word16(r.sent.data[1], r.sent.data[2]), endAddr := Word16(r.sent.data[3], r.sent.data[4]))
  }

  function FlashAddress(r: Regs): nat {
    r.flash64KBPage * 0x1_0000 + r.startAddr
  }

  /** Is the byte at an address something else than 0xFF? */
  predicate ByteNotBlank(words: seq<bv16>, address: nat)
    requires |words| == FLASH_WORDS
  {
    var w := words[WordOf(address)];
    if address % 2 == 0 then w & 0x00FF != 0x00FF else w & 0xFF00 != 0xFF00
  }

  /** The first byte of the application section from `address` on that is not blank. */
  function FirstNotBlank(words: seq<bv16>, address: nat): (a: nat)
    requires |words| == FLASH_WORDS && address <= BOOT_START_ADDR
    ensures address <= a <= BOOT_START_ADDR
    ensures a < BOOT_START_ADDR ==> ByteNotBlank(words, a)
    ensures forall b | address <= b < a :: !ByteNotBlank(words, b)
    decreases BOOT_START_ADDR - address
  {
    if address == BOOT_START_ADDR || ByteNotBlank(words, address) then address else FirstNotBlank(words, address + 1)
  }

  /** The bootloader's information bytes; what lies around these tables in RAM is not modelled. */
  function InfoByte(tables: (byte, int) -> byte, signature: seq<byte>, table: byte, index: byte): byte {
    if table == 0 && index < 3 then [0x20, 0xDC, 0xFB][index]
    else if table == 1 && 0 <= index - 0x30 < |signature| then signature[index - 0x30]
    else tables(table, index)
  }

  datatype Info = Info(signature: seq<byte>, around: (byte, int) -> byte)

  /** The registers after a command, given the flash it is applied to. */
  function CommandRegs(r: Regs, words: seq<bv16>, info: Info): (q: Regs)
    requires Shape(r) && |words| == FLASH_WORDS
    ensures Shape(q)
  {
    var d := r.sent.data;
    if !Permitted(r) then r.(dfuState := DFU_ERROR, dfuStatus := ERR_WRITE)
    else if r.sent.op == COMMAND_PROG_START then
      if d[0] == 0x00 || d[0] == 0x01 then WithAddresses(r).(dfuState := DFU_DNLOAD_IDLE) else r
    else if r.sent.op == COMMAND_DISP_DATA then
      if d[0] == 0x00 || d[0] == 0x02 then WithAddresses(r).(dfuState := DFU_UPLOAD_IDLE)
      else if d[0] == 0x01 then
        var a := FirstNotBlank(words, 0);
        if a < BOOT_START_ADDR then
          r.(flash64KBPage := a / 0x1_0000, startAddr := a % 0x1_0000, dfuState := DFU_ERROR, dfuStatus := ERR_CHECK_ERASED)
        else r
      else r
    else if r.sent.op == COMMAND_WRITE then
      if d[0] == 0x03 then
        var q := r.(waitForExit := true);
        if r.sent.dataSize == 0 && d[1] != 0x00 then q.(appStart := Word16(d[3], d[4]), runBootloader := false) else q
      else if d[0] == 0x00 && d[1] == 0xFF then r.(isSecure := false)
      else r
    else if r.sent.op == COMMAND_READ then
      if d[0] == 0x00 || d[0] == 0x01 then r.(responseByte := InfoByte(info.around, info.signature, d[0], d[1])) else r
    else if r.sent.op == COMMAND_CHANGE_BASE_ADDR && d[0] == 0x03 && d[1] == 0x00 then r.(flash64KBPage := d[2])
    else r
  }

  /** The flash after a command. */
  function CommandFlash(r: Regs, f: Flash): (g: Flash)
    requires Shape(r) && Valid(f)
    ensures Valid(g)
  {
    if Permitted(r) && r.sent.op == COMMAND_PROG_START && r.sent.data[0] == 0x00 then PageErase(f, FlashAddress(WithAddresses(r)))
    else if Permitted(r) && IsErase(r) then ErasedApplication(f)
    else f
  }

  function Parameters(packet: seq<byte>): seq<byte> {
    if packet == [] then [] else packet[1..]
  }

  /** How many parameters are taken from the first packet: five at most. */
  function ParameterCount(packet: seq<byte>): nat {
    if |Parameters(packet)| < 5 then |Parameters(packet)| else 5
  }

  /** The command and parameters loaded from a download's first packet; parameters that are not
      sent keep their values, and every byte taken counts against the size the host announced. */
  function Loaded(r: Regs, packet: seq<byte>): (q: Regs)
    requires Shape(r) && packet != []
    ensures Shape(q)
  {
    var count := ParameterCount(packet);
    r.(sent := Command(packet[0], Parameters(packet)[..count] + r.sent.data[count..],
                       (r.sent.dataSize - 1 - count) % 0x1_0000))
  }

  lemma NextParameter(packet: seq<byte>, data: seq<byte>, count: nat)
    requires |data| == 5 && count < 5 && count < |packet| - 1
    ensures (packet[1..][..count] + data[count..])[count := packet[1 + count]] == packet[1..][..count + 1] + data[count + 1..]
  {
  }

  /** The registers and flash just before the data stage of a download is looked at. */
  function Dispatched(r: Regs, f: Flash, info: Info, wLength: word, packet: seq<byte>): (q: (Regs, Flash))
    requires Shape(r) && Valid(f) && (wLength > 0 ==> packet != [])
    ensures Shape(q.0) && Valid(q.1)
  {
    var r0 := r.(sent := r.sent.(dataSize := wLength));
    var r1 := if r0.waitForExit then CommandRegs(r0, f.words, info).(waitForExit := false) else r0;
    var f1 := if r0.waitForExit then CommandFlash(r0, f) else f;
    if wLength == 0 then (r1, f1)
    else var r2 := Loaded(r1, packet); (CommandRegs(r2, f1.words, info), CommandFlash(r2, f1))
  }

  function BytesRemaining(r: Regs): word {
    (r.endAddr - r.startAddr + 1) % 0x1_0000
  }

  /** The EEPROM after `count` bytes were written from `start` on; addresses wrap. */
  function EepromAfter(eeprom: seq<byte>, start: nat, count: nat, bytes: nat -> byte): (e: seq<byte>)
    requires |eeprom| == EEPROM_SIZE
    ensures |e| == EEPROM_SIZE
  {
    if count == 0 then eeprom
    else EepromAfter(eeprom, start, count - 1, bytes)[(start + count - 1) % 0x1_0000 % EEPROM_SIZE := bytes(count - 1)]
  }

  lemma WrapNext(a: nat)
    ensures (a % 0x1_0000 + 1) % 0x1_0000 == (a + 1) % 0x1_0000
  {
  }

  /** The bootloader and its memories. */
  datatype Device = Device(regs: Regs, flash: Flash, eeprom: seq<byte>)

  predicate Good(d: Device) {
    Shape(d.regs) && Valid(d.flash) && |d.eeprom| == EEPROM_SIZE
  }

  predicate Expected(req: Request) {
    req.DnLoad? && req.wLength > 0 ==> req.packet != []
  }

  /** What an upload request sends, and the registers after it. */
  function Uploaded(r: Regs, flash: Flash, eeprom: seq<byte>): (Regs, Reply)
    requires Shape(r) && Valid(flash) && |eeprom| == EEPROM_SIZE
  {
    var n := BytesRemaining(r);
    if r.dfuState != DFU_UPLOAD_IDLE then
      (r, Reply(if r.dfuState == DFU_ERROR && r.sent.data[0] == 0x01 then [r.startAddr % 256, r.startAddr / 256]
                else [r.responseByte], []))
    else if r.sent.data[0] == 0x00 then
      (r.(startAddr := r.endAddr, dfuState := DFU_IDLE), Reply([], WordsAt(flash.words, FlashAddress(r) / 2, n / 2)))
    else if r.sent.data[0] == 0x02 then
      (r.(startAddr := (r.startAddr + n) % 0x1_0000, dfuState := DFU_IDLE), Reply(EepromBytes(eeprom, r.startAddr, n), []))
    else (r.(dfuState := DFU_IDLE), SILENCE)
  }

  function EepromBytes(eeprom: seq<byte>, start: nat, count: nat): (s: seq<byte>)
    requires |eeprom| == EEPROM_SIZE
    ensures |s| == count
  {
    seq(count, k requires 0 <= k < count => eeprom[(start + k) % 0x1_0000 % EEPROM_SIZE])
  }

  lemma NextEepromByte(eeprom: seq<byte>, start: nat, count: nat)
    requires |eeprom| == EEPROM_SIZE
    ensures EepromBytes(eeprom, start, count + 1) ==
      EepromBytes(eeprom, start, count) + [eeprom[(start + count) % 0x1_0000 % EEPROM_SIZE]]
  {
  }

  /** The device after a data stage was written, given its registers and flash before it. */
  function Transferred(r: Regs, f: Flash, eeprom: seq<byte>, words: nat -> bv16, bytes: nat -> byte): Device
    requires Shape(r) && Valid(f) && |eeprom| == EEPROM_SIZE
  {
    var n := BytesRemaining(r);
    if r.sent.data[0] == 0x00
    then Device(r.(startAddr := r.endAddr), RwwEnable(Programmed(f, FlashAddress(r) / 2, n / 2, words, 0, 0)), eeprom)
    else Device(r.(startAddr := (r.startAddr + n) % 0x1_0000), f, EepromAfter(eeprom, r.startAddr, n, bytes))
  }

  /** One request: the device before and after it, and what was sent back. */
  ghost predicate Transition(info: Info, d: Device, req: Request, after: Device, reply: Reply)
    requires Good(d) && Expected(req)
  {
    var r := d.regs.(sent := d.regs.sent.(dataSize := req.wLength));
    match req
    case DnLoad(wLength, packet, words, bytes) =>
      var (q, f) := Dispatched(d.regs, d.flash, info, wLength, packet);
      && reply == SILENCE
      && if q.dfuState != DFU_DNLOAD_IDLE then after == Device(q, f, d.eeprom)
         else if q.sent.dataSize == 0 then after == Device(q.(dfuState := DFU_IDLE), f, d.eeprom)
         else after == Transferred(q, f, d.eeprom, words, bytes)
    case UpLoad(_) =>
      var (q, sent) := Uploaded(r, d.flash, d.eeprom);
      after == d.(regs := q) && reply == sent
    case GetStatus(_) => after == d.(regs := r) && reply == Reply([r.dfuStatus, 0, 0, 0, r.dfuState, 0], [])
    case ClrStatus(_) => after == d.(regs := r.(dfuStatus := STATUS_OK)) && reply == SILENCE
    case GetState(_) => after == d.(regs := r) && reply == Reply([r.dfuState], [])
    case AbortRequest(_) => after == d.(regs := r.(dfuState := DFU_IDLE)) && reply == SILENCE
    case OtherRequest(_) => after == d.(regs := r) && reply == SILENCE
  }

  class Bootloader {
    const info: Info
    var isSecure: bool
    var runBootloader: bool
    var waitForExit: bool
    var dfuState: byte
    var dfuStatus: byte
    var sent: Command
    var responseByte: byte
    var appStart: word
    var flash64KBPage: byte
    var startAddr: word
    var endAddr: word
    var flash: Flash
    var eeprom: seq<byte>

    constructor (secureMode: bool, info: Info, flash: Flash, eeprom: seq<byte>)
      requires Valid(flash) && |eeprom| == EEPROM_SIZE
      ensures Ok() && this.flash == flash && this.eeprom == eeprom && this.info == info
      ensures Registers() == Regs(secureMode, true, false, DFU_IDLE, STATUS_OK, Command(0, [0, 0, 0, 0, 0], 0), 0, 0, 0, 0, 0)
    {
      this.info, this.flash, this.eeprom := info, flash, eeprom;
      isSecure, runBootloader, waitForExit := secureMode, true, false;
      dfuState, dfuStatus, sent := DFU_IDLE, STATUS_OK, Command(0, [0, 0, 0, 0, 0], 0);
      responseByte, appStart, flash64KBPage, startAddr, endAddr := 0, 0, 0, 0, 0;
    }

    function Registers(): Regs
      reads this
    {
      Regs(isSecure, runBootloader, waitForExit, dfuState, dfuStatus, sent, responseByte, appStart, flash64KBPage, startAddr, endAddr)
    }

    predicate Ok()
      reads this
    {
      |sent.data| == 5 && Valid(flash) && |eeprom| == EEPROM_SIZE
    }

    method LoadStartEndAddresses()
      requires Ok()
      modifies this
      ensures Registers() == WithAddresses(old(Registers())) && flash == old(flash) && eeprom == old(eeprom)
    {
      startAddr := Word16(sent.data[1], sent.data[2]);
      endAddr := Word16(sent.data[3], sent.data[4]);
    }

    /** Looks for the first byte of the application section that is not blank. */
    method BlankCheck()
      requires Ok()
      modifies this
      ensures flash == old(flash) && eeprom == old(eeprom)
      ensures var a := FirstNotBlank(flash.words, 0);
        Registers() == if a < BOOT_START_ADDR then
          old(Registers()).(flash64KBPage := a / 0x1_0000, startAddr := a % 0x1_0000, dfuState := DFU_ERROR, dfuStatus := ERR_CHECK_ERASED)
        else old(Registers())
    {
      var currFlashAddress: nat := 0;
      while currFlashAddress < BOOT_START_ADDR
        invariant currFlashAddress <= BOOT_START_ADDR && Ok()
        invariant flash == old(flash) && eeprom == old(eeprom) && Registers() == old(Registers())
        invariant FirstNotBlank(flash.words, 0) == FirstNotBlank(flash.words, currFlashAddress)
      {
        if ByteNotBlank(flash.words, currFlashAddress) {
          flash64KBPage := currFlashAddress / 0x1_0000;
          startAddr := currFlashAddress % 0x1_0000;
          dfuState := DFU_ERROR;
          dfuStatus := ERR_CHECK_ERASED;
          return;
        }
        currFlashAddress := currFlashAddress + 1;
      }
    }

    method ProcessMemProgCommand()
      requires Ok()
      modifies this
      ensures Ok() && eeprom == old(eeprom)
      ensures var r := old(Registers());
        && Registers() == (if r.sent.data[0] == 0 || r.sent.data[0] == 1 then WithAddresses(r).(dfuState := DFU_DNLOAD_IDLE) else r)
        && flash == (if r.sent.data[0] == 0 then PageErase(old(flash), FlashAddress(WithAddresses(r))) else old(flash))
    {
      if sent.data[0] == 0x00 || sent.data[0] == 0x01 {
        LoadStartEndAddresses();
        if sent.data[0] == 0x00 {
          flash := PageErase(flash, flash64KBPage * 0x1_0000 + startAddr);
        }
        dfuState := DFU_DNLOAD_IDLE;
      }
    }

    method ProcessMemReadCommand()
      requires Ok() && sent.op == COMMAND_DISP_DATA && !isSecure
      modifies this
      ensures Ok() && flash == old(flash) && eeprom == old(eeprom)
      ensures Registers() == CommandRegs(old(Registers()), flash.words, info)
    {
      if sent.data[0] == 0x00 || sent.data[0] == 0x02 {
        LoadStartEndAddresses();
        dfuState := DFU_UPLOAD_IDLE;
      } else if sent.data[0] == 0x01 {
        BlankCheck();
      }
    }

    method ProcessWriteCommand()
      requires Ok() && sent.op == COMMAND_WRITE && Permitted(Registers())
      modifies this
      ensures Ok() && eeprom == old(eeprom)
      ensures Registers() == CommandRegs(old(Registers()), old(flash).words, info)
      ensures flash == CommandFlash(old(Registers()), old(flash))
    {
      if sent.data[0] == 0x03 {
        waitForExit := true;
        if sent.dataSize == 0 {
          if sent.data[1] != 0x00 {
            appStart := Word16(sent.data[3], sent.data[4]);
            runBootloader := false;
          }
        }
      } else if sent.data[0] == 0x00 && sent.data[1] == 0xFF {
        flash := EraseApplication(flash);
        isSecure := false;
      }
    }

    method ProcessReadCommand()
      requires Ok() && sent.op == COMMAND_READ
      modifies this
      ensures Ok() && flash == old(flash) && eeprom == old(eeprom)
      ensures Registers() == CommandRegs(old(Registers()), flash.words, info)
    {
      if sent.data[0] == 0x00 || sent.data[0] == 0x01 {
        responseByte := InfoByte(info.around, info.signature, sent.data[0], sent.data[1]);
      }
    }

    /** Refuses what a secure device must not do and hands the rest to its handler. */
    method ProcessBootloaderCommand()
      requires Ok()
      modifies this
      ensures Ok() && eeprom == old(eeprom)
      ensures Registers() == CommandRegs(old(Registers()), old(flash).words, info)
      ensures flash == CommandFlash(old(Registers()), old(flash))
    {
      if isSecure {
        if !((sent.op == COMMAND_WRITE && sent.data[0] == 0x00 && sent.data[1] == 0xFF) || sent.op == COMMAND_READ) {
          dfuState := DFU_ERROR;
          dfuStatus := ERR_WRITE;
          return;
        }
      }
      if sent.op == COMMAND_PROG_START {
        ProcessMemProgCommand();
      } else if sent.op == COMMAND_DISP_DATA {
        ProcessMemReadCommand();
      } else if sent.op == COMMAND_WRITE {
        ProcessWriteCommand();
      } else if sent.op == COMMAND_READ {
        ProcessReadCommand();
      } else if sent.op == COMMAND_CHANGE_BASE_ADDR {
        if sent.data[0] == 0x03 && sent.data[1] == 0x00 {
          flash64KBPage := sent.data[2];
        }
      }
    }

    /** Takes the command byte and up to five parameters from the first packet. */
    method LoadCommand(packet: seq<byte>)
      requires Ok() && packet != []
      modifies this
      ensures Ok() && flash == old(flash) && eeprom == old(eeprom)
      ensures Registers() == Loaded(old(Registers()), packet)
    {
      hide Transition, CommandRegs;
      var data, dataSize: word := sent.data, (sent.dataSize - 1) % 0x1_0000;
      var dataByte := 0;
      assert packet[1..][..0] + data[0..] == data;
      while dataByte < 5 && dataByte < |packet| - 1
        invariant 0 <= dataByte <= 5 && dataByte <= |packet| - 1 && State() == old(State())
        invariant data == packet[1..][..dataByte] + sent.data[dataByte..]
        invariant dataSize == (sent.dataSize - 1 - dataByte) % 0x1_0000
      {
        NextParameter(packet, sent.data, dataByte);
        var parameter: byte := packet[1 + dataByte];
        data := data[dataByte := parameter];
        dataSize := (dataSize - 1) % 0x1_0000;
        dataByte := dataByte + 1;
      }
      assert dataByte == ParameterCount(packet);
      sent := Command(packet[0], data, dataSize);
    }

    function State(): Device
      reads this
    {
      Device(Registers(), flash, eeprom)
    }

    /** The EEPROM write loop. */
    method WriteEeprom(bytes: nat -> byte)
      requires Ok()
      modifies this`eeprom, this`startAddr
      ensures Ok()
      ensures var n := BytesRemaining(old(Registers()));
        && eeprom == EepromAfter(old(eeprom), old(startAddr), n, bytes)
        && startAddr == (old(startAddr) + n) % 0x1_0000
    {
      var total: nat := (endAddr - startAddr + 1) % 0x1_0000;
      var bytesRemaining, taken: nat := total, 0;
      while bytesRemaining > 0
        invariant taken == total - bytesRemaining <= total && Ok()
        invariant startAddr == (old(startAddr) + taken) % 0x1_0000
        invariant eeprom == EepromAfter(old(eeprom), old(startAddr), taken, bytes)
      {
        eeprom := eeprom[startAddr % EEPROM_SIZE := bytes(taken)];
        bytesRemaining := bytesRemaining - 1;
        taken := taken + 1;
        WrapNext(old(startAddr) + taken - 1);
        startAddr := (startAddr + 1) % 0x1_0000;
      }
    }

    /** The EEPROM read loop. */
    method ReadEeprom() returns (s: seq<byte>)
      requires Ok()
      modifies this`startAddr
      ensures var n := BytesRemaining(old(Registers()));
        && s == EepromBytes(eeprom, old(startAddr), n)
        && startAddr == (old(startAddr) + n) % 0x1_0000
    {
      var total: nat := (endAddr - startAddr + 1) % 0x1_0000;
      var bytesRemaining := total;
      s := [];
      ghost var read: nat := 0;
      while bytesRemaining > 0
        invariant read == total - bytesRemaining <= total
        invariant startAddr == (old(startAddr) + read) % 0x1_0000
        invariant s == EepromBytes(eeprom, old(startAddr), read)
      {
        NextEepromByte(eeprom, old(startAddr), read);
        s := s + [eeprom[startAddr % EEPROM_SIZE]];
        bytesRemaining := bytesRemaining - 1;
        WrapNext(old(startAddr) + read);
        startAddr := (startAddr + 1) % 0x1_0000;
        read := read + 1;
      }
    }

    /** The data stage of a download that follows a programming command. */
    method Transfer(words: nat -> bv16, bytes: nat -> byte)
      requires Ok()
      modifies this
      ensures Ok()
      ensures State() == Transferred(old(Registers()), old(flash), old(eeprom), words, bytes)
    {
      hide Programmed, EepromAfter;
      if sent.data[0] == 0x00 {
        var wordsRemaining := (endAddr - startAddr + 1) % 0x1_0000 / 2;
        flash := ProgramWords(flash, flash64KBPage * 0x1_0000 + startAddr, wordsRemaining, words);
        startAddr := endAddr;
      } else {
        WriteEeprom(bytes);
      }
    }

    /** Everything a download does before its data stage is looked at. */
    method Dispatch(wLength: word, packet: seq<byte>)
      requires Ok() && (wLength > 0 ==> packet != [])
      modifies this
      ensures Ok() && eeprom == old(eeprom)
      ensures (Registers(), flash) == Dispatched(old(Registers()), old(flash), info, wLength, packet)
    {
      sent := sent.(dataSize := wLength);
      if waitForExit {
        ProcessBootloaderCommand();
        waitForExit := false;
      }
      if wLength != 0 {
        LoadCommand(packet);
        ProcessBootloaderCommand();
      }
    }

    method Upload() returns (reply: Reply)
      requires Ok()
      modifies this
      ensures Ok() && flash == old(flash) && eeprom == old(eeprom)
      ensures (Registers(), reply) == Uploaded(old(Registers()), flash, eeprom)
    {
      if dfuState != DFU_UPLOAD_IDLE {
        if dfuState == DFU_ERROR && sent.data[0] == 0x01 {
          reply := Reply([startAddr % 256, startAddr / 256], []);
        } else {
          reply := Reply([responseByte], []);
        }
      } else {
        reply := SILENCE;
        if sent.data[0] == 0x00 {
          var wordsRemaining := (endAddr - startAddr + 1) % 0x1_0000 / 2;
          var words := ReadWords(flash, flash64KBPage * 0x1_0000 + startAddr, wordsRemaining);
          reply := Reply([], words);
          startAddr := endAddr;
        } else if sent.data[0] == 0x02 {
          var bytes := ReadEeprom();
          reply := Reply(bytes, []);
        }
        dfuState := DFU_IDLE;
      }
    }

    /** Handles one control request. */
    method HandleRequest(req: Request) returns (reply: Reply)
      requires Ok() && Expected(req)
      modifies this
      ensures Ok()
      ensures Transition(info, old(State()), req, State(), reply)
    {
      reply := SILENCE;
      match req {
        case DnLoad(wLength, packet, words, bytes) =>
          Dispatch(wLength, packet);
          if dfuState == DFU_DNLOAD_IDLE {
            if sent.dataSize == 0 {
              dfuState := DFU_IDLE;
            } else {
              Transfer(words, bytes);
            }
          }
        case UpLoad(wLength) =>
          sent := sent.(dataSize := wLength);
          reply := Upload();
        case GetStatus(wLength) =>
          sent := sent.(dataSize := wLength);
          reply := Reply([dfuStatus, 0, 0, 0, dfuState, 0], []);
        case ClrStatus(wLength) =>
          sent := sent.(dataSize := wLength);
          dfuStatus := STATUS_OK;
        case GetState(wLength) =>
          sent := sent.(dataSize := wLength);
          reply := Reply([dfuState], []);
        case AbortRequest(wLength) =>
          sent := sent.(dataSize := wLength);
          dfuState := DFU_IDLE;
        case OtherRequest(wLength) =>
          sent := sent.(dataSize := wLength);
      }
    }
  }

  // ---- runs of requests ------------------------------------------------------------------------

  /** A run: the devices before, between and after the requests, and the replies. */
  ghost predicate IsRun(info: Info, devices: seq<Device>, requests: seq<Request>, replies: seq<Reply>) {
    && |devices| == |requests| + 1 && |replies| == |requests|
    && (forall i | 0 <= i < |devices| :: Good(devices[i]))
    && (forall i | 0 <= i < |requests| ::
          Expected(requests[i]) && Transition(info, devices[i], requests[i], devices[i + 1], replies[i]))
  }

  /** A secure device that has not been asked to leave the bootloader. */
  predicate Secured(d: Device)
    requires Good(d)
  {
    && d.regs.isSecure && !d.regs.waitForExit && (d.regs.dfuState == DFU_IDLE || d.regs.dfuState == DFU_ERROR)
    && TempBlank(d.flash)
  }

  /** While secure, a command leaves the flash alone unless it is the erase, which clears the flag. */
  lemma SecureCommand(r: Regs, words: seq<bv16>, f: Flash, info: Info)
    requires Shape(r) && r.isSecure && |words| == FLASH_WORDS && Valid(f)
    requires r.dfuState == DFU_IDLE || r.dfuState == DFU_ERROR
    ensures var q := CommandRegs(r, words, info);
      && (q.dfuState == DFU_IDLE || q.dfuState == DFU_ERROR) && q.waitForExit == r.waitForExit
      && q.isSecure == !(Permitted(r) && IsErase(r))
      && CommandFlash(r, f) == (if q.isSecure then f else ErasedApplication(f))
  {
  }

  lemma SecureStep(info: Info, d: Device, req: Request, after: Device, reply: Reply)
    requires Good(d) && Good(after) && Expected(req) && Transition(info, d, req, after, reply) && Secured(d)
    ensures after.eeprom == d.eeprom
    ensures after.regs.isSecure ==> Secured(after) && after.flash == d.flash
    ensures !after.regs.isSecure ==> after.flash == ErasedApplication(d.flash) && ApplicationBlank(after.flash)
  {
    if req.DnLoad? && req.wLength > 0 {
      var r := d.regs.(sent := d.regs.sent.(dataSize := req.wLength));
      SecureCommand(Loaded(r, req.packet), d.flash.words, d.flash, info);
      EraseLeavesBlank(d.flash);
    }
  }

  lemma CommandNeverSecures(r: Regs, words: seq<bv16>, info: Info)
    requires Shape(r) && |words| == FLASH_WORDS && !r.isSecure
    ensures !CommandRegs(r, words, info).isSecure
  {
  }

  /** The flag, once cleared, stays cleared. */
  lemma FlagOnlyClears(info: Info, d: Device, req: Request, after: Device, reply: Reply)
    requires Good(d) && Expected(req) && Transition(info, d, req, after, reply) && !d.regs.isSecure
    ensures !after.regs.isSecure
  {
    if req.DnLoad? {
      var r0 := d.regs.(sent := d.regs.sent.(dataSize := req.wLength));
      CommandNeverSecures(r0, d.flash.words, info);
      var r1 := if r0.waitForExit then CommandRegs(r0, d.flash.words, info).(waitForExit := false) else r0;
      var f1 := if r0.waitForExit then CommandFlash(r0, d.flash) else d.flash;
      if req.wLength > 0 {
        CommandNeverSecures(Loaded(r1, req.packet), f1.words, info);
      }
    }
  }

  lemma {:induction false} SecureSoFar(info: Info, devices: seq<Device>, requests: seq<Request>, replies: seq<Reply>, i: nat)
    requires IsRun(info, devices, requests, replies) && Secured(devices[0])
    requires i < |devices| && devices[i].regs.isSecure
    ensures Secured(devices[i]) && devices[i].flash == devices[0].flash && devices[i].eeprom == devices[0].eeprom
    ensures forall j | 0 <= j <= i :: devices[j].regs.isSecure
    decreases i
  {
    if i > 0 {
      if !devices[i - 1].regs.isSecure {
        FlagOnlyClears(info, devices[i - 1], requests[i - 1], devices[i], replies[i - 1]);
      }
      SecureSoFar(info, devices, requests, replies, i - 1);
      SecureStep(info, devices[i - 1], requests[i - 1], devices[i], replies[i - 1]);
    }
  }

  /** Starting secure, in every sequence of requests: as long as the flag holds, flash and EEPROM
      are what they were and the DFU state is idle or error; and the step that clears the flag
      leaves the whole application section blank and the EEPROM alone. */
  lemma SecureRun(info: Info, devices: seq<Device>, requests: seq<Request>, replies: seq<Reply>, i: nat)
    requires IsRun(info, devices, requests, replies) && Secured(devices[0]) && i < |devices|
    ensures devices[i].regs.isSecure ==>
      && devices[i].flash == devices[0].flash && devices[i].eeprom == devices[0].eeprom
      && (devices[i].regs.dfuState == DFU_IDLE || devices[i].regs.dfuState == DFU_ERROR)
    ensures devices[i].regs.isSecure && i < |requests| && !devices[i + 1].regs.isSecure ==>
      && ApplicationBlank(devices[i + 1].flash) && devices[i + 1].eeprom == devices[0].eeprom
  {
    if devices[i].regs.isSecure {
      SecureSoFar(info, devices, requests, replies, i);
      if i < |requests| {
        SecureStep(info, devices[i], requests[i], devices[i + 1], replies[i]);
      }
    }
  }

  /** One secure step treats two devices that differ only in their memories alike. */
  lemma SecureStepBlind(info: Info, d1: Device, d2: Device, req: Request, after1: Device, after2: Device, reply1: Reply, reply2: Reply)
    requires Good(d1) && Good(d2) && Expected(req) && Secured(d1) && Secured(d2) && d1.regs == d2.regs
    requires Transition(info, d1, req, after1, reply1) && Transition(info, d2, req, after2, reply2)
    ensures reply1 == reply2 && after1.regs == after2.regs
  {
    if req.DnLoad? && req.wLength > 0 {
      var r := Loaded(d1.regs.(sent := d1.regs.sent.(dataSize := req.wLength)), req.packet);
      SecureCommand(r, d1.flash.words, d1.flash, info);
      SecureCommand(r, d2.flash.words, d2.flash, info);
      assert CommandRegs(r, d1.flash.words, info) == CommandRegs(r, d2.flash.words, info);
    }
  }

  /** A secure device gives nothing away: two devices with whatever flash and EEPROM contents
      answer the same requests with the same replies, up to and including the one that clears
      the flag. */
  lemma {:induction false} NothingLeaks(info: Info, devices1: seq<Device>, devices2: seq<Device>, requests: seq<Request>,
                                        replies1: seq<Reply>, replies2: seq<Reply>, i: nat)
    requires IsRun(info, devices1, requests, replies1) && IsRun(info, devices2, requests, replies2)
    requires Secured(devices1[0]) && Secured(devices2[0]) && devices1[0].regs == devices2[0].regs
    requires i <= |requests| && (i > 0 ==> devices1[i - 1].regs.isSecure)
    ensures devices1[i].regs == devices2[i].regs && replies1[..i] == replies2[..i]
    decreases i
  {
    if i > 0 {
      SecureSoFar(info, devices1, requests, replies1, i - 1);
      NothingLeaks(info, devices1, devices2, requests, replies1, replies2, i - 1);
      SecureSoFar(info, devices2, requests, replies2, i - 1);
      SecureStepBlind(info, devices1[i - 1], devices2[i - 1], requests[i - 1], devices1[i], devices2[i], replies1[i - 1], replies2[i - 1]);
      assert replies1[..i] == replies1[..i - 1] + [replies1[i - 1]];
      assert replies2[..i] == replies2[..i - 1] + [replies2[i - 1]];
    }
  }

  /** The first packet of a command about the range from `start` to `end` of a kind of memory. */
  function RangePacket(op: byte, kind: byte, start: word, end: word): seq<byte> {
    [op, kind, start / 256, start % 256, end / 256, end % 256]
  }

  /** Bytes after the five parameters do not matter to the command. */
  lemma RangeLoaded(r: Regs, op: byte, kind: byte, start: word, end: word, packet: seq<byte>)
    requires Shape(r) && RangePacket(op, kind, start, end) <= packet
    ensures var q := Loaded(r, packet);
      && q == r.(sent := q.sent) && q.sent.op == op && q.sent.data[0] == kind
      && (r.sent.dataSize >= 6 ==> q.sent.dataSize == r.sent.dataSize - 6)
      && WithAddresses(q) == q.(startAddr := start, endAddr := end)
  {
    assert ParameterCount(packet) == 5;
    assert Parameters(packet)[..5] == RangePacket(op, kind, start, end)[1..];
    assert Loaded(r, packet).sent.data == [kind, start / 256, start % 256, end / 256, end % 256];
  }

  /** The 16-bit byte count is right but for the whole 64 KiB, which count as none. */
  lemma RangeLength(r: Regs)
    requires r.startAddr <= r.endAddr
    ensures BytesRemaining(r) == r.endAddr + 1 - r.startAddr <==> !(r.startAddr == 0 && r.endAddr == 0xFFFF)
    ensures r.startAddr == 0 && r.endAddr == 0xFFFF ==> BytesRemaining(r) == 0
  {
  }

  /** An EEPROM cell, whatever the wrap of the 16-bit address. */
  lemma CellOf(a: nat)
    ensures a % 0x1_0000 % EEPROM_SIZE == a % EEPROM_SIZE
  {
    assert a % 0x1_0000 == a - a / 0x1_0000 * 16 * EEPROM_SIZE;
    DivModUnique(a % 0x1_0000, EEPROM_SIZE, a / EEPROM_SIZE - a / 0x1_0000 * 16, a % EEPROM_SIZE);
  }

  /** Addresses closer than the size of the EEPROM are different cells. */
  lemma CellsDiffer(a: nat, d: nat)
    requires 0 < d < EEPROM_SIZE
    ensures a % EEPROM_SIZE != (a + d) % EEPROM_SIZE
  {
    var q, r := a / EEPROM_SIZE, a % EEPROM_SIZE;
    if r + d < EEPROM_SIZE {
      DivModUnique(a + d, EEPROM_SIZE, q, r + d);
    } else {
      DivModUnique(a + d, EEPROM_SIZE, q + 1, r + d - EEPROM_SIZE);
    }
  }

  lemma {:induction false} EepromHolds(eeprom: seq<byte>, start: nat, n: nat, bytes: nat -> byte, k: nat)
    requires |eeprom| == EEPROM_SIZE && k < n <= EEPROM_SIZE
    ensures EepromAfter(eeprom, start, n, bytes)[(start + k) % 0x1_0000 % EEPROM_SIZE] == bytes(k)
    decreases n
  {
    if k < n - 1 {
      EepromHolds(eeprom, start, n - 1, bytes, k);
      CellOf(start + k);
      CellOf(start + n - 1);
      CellsDiffer(start + k, n - 1 - k);
    }
  }

  /** How far behind the cell of address `start` a cell lies, around the end of the EEPROM. */
  function Behind(cell: nat, start: nat): nat {
    (cell + EEPROM_SIZE - start % EEPROM_SIZE) % EEPROM_SIZE
  }

  lemma BehindStart(start: nat, k: nat)
    requires k < EEPROM_SIZE
    ensures Behind((start + k) % EEPROM_SIZE, start) == k
  {
    var q, r := start / EEPROM_SIZE, start % EEPROM_SIZE;
    if r + k < EEPROM_SIZE {
      DivModUnique(start + k, EEPROM_SIZE, q, r + k);
    } else {
      DivModUnique(start + k, EEPROM_SIZE, q + 1, r + k - EEPROM_SIZE);
    }
  }

  /** Cells outside the range written keep what they held. */
  lemma {:induction false} EepromKept(eeprom: seq<byte>, start: nat, n: nat, bytes: nat -> byte, cell: nat)
    requires |eeprom| == EEPROM_SIZE && cell < EEPROM_SIZE && n <= Behind(cell, start)
    ensures EepromAfter(eeprom, start, n, bytes)[cell] == eeprom[cell]
    decreases n
  {
    if n > 0 {
      EepromKept(eeprom, start, n - 1, bytes, cell);
      CellOf(start + n - 1);
      BehindStart(start, n - 1);
    }
  }

  /** What was written to the EEPROM is read back, up to its size. */
  lemma EepromRoundTrip(eeprom: seq<byte>, start: nat, n: nat, bytes: nat -> byte)
    requires |eeprom| == EEPROM_SIZE && n <= EEPROM_SIZE
    ensures EepromBytes(EepromAfter(eeprom, start, n, bytes), start, n) == seq(n, k requires 0 <= k => bytes(k))
  {
    forall k | 0 <= k < n ensures EepromBytes(EepromAfter(eeprom, start, n, bytes), start, n)[k] == bytes(k) {
      EepromHolds(eeprom, start, n, bytes, k);
    }
  }

  /** Requests that move no data: the queries a host makes between its requests, the zero-length
      download that ends a firmware image, and what the bootloader does not know. */
  predicate MovesNothing(req: Request) {
    || req.GetStatus? || req.GetState? || req.ClrStatus? || req.OtherRequest?
    || (req.DnLoad? && req.wLength == 0)
  }

  /** Nothing differs but the size last announced and the DFU status and state; the latter is idle if
      it changed, which only an abort and the end of a download do. */
  ghost predicate Kept(d: Device, e: Device, aborts: bool) {
    && e.flash == d.flash && e.eeprom == d.eeprom
    && e.regs == d.regs.(sent := d.regs.sent.(dataSize := e.regs.sent.dataSize),
                         dfuStatus := e.regs.dfuStatus, dfuState := e.regs.dfuState)
    && (e.regs.dfuState == d.regs.dfuState
        || (e.regs.dfuState == DFU_IDLE && (aborts || d.regs.dfuState == DFU_DNLOAD_IDLE)))
  }

  lemma KeptStep(info: Info, d: Device, req: Request, after: Device, reply: Reply, aborts: bool)
    requires Good(d) && Expected(req) && Transition(info, d, req, after, reply) && !d.regs.waitForExit
    requires MovesNothing(req) || (aborts && req.AbortRequest?)
    ensures Kept(d, after, aborts)
  {
  }

  lemma {:induction false} KeptBetween(info: Info, devices: seq<Device>, requests: seq<Request>, replies: seq<Reply>,
                                       i: nat, j: nat, aborts: bool)
    requires IsRun(info, devices, requests, replies) && i <= j <= |requests| && !devices[i].regs.waitForExit
    requires forall k | i <= k < j :: MovesNothing(requests[k]) || (aborts && requests[k].AbortRequest?)
    ensures Kept(devices[i], devices[j], aborts)
    decreases j
  {
    if i < j {
      KeptBetween(info, devices, requests, replies, i, j - 1, aborts);
      KeptStep(info, devices[j - 1], requests[j - 1], devices[j], replies[j - 1], aborts);
    }
  }

  /** A whole session, anywhere in a run: the host programs a flash range with request `a`, asks for
      it with request `b` and reads it back with request `c`; between them it may make any queries,
      end the download and, before `b`, abort. If the range starts on a page or stays inside one, the
      range holds exactly the words sent, the host gets exactly these words back, and outside the
      range the flash is as before but for the rest of the touched pages, which is blank. */
  lemma DownloadThenUpload(info: Info, devices: seq<Device>, requests: seq<Request>, replies: seq<Reply>,
                           a: nat, b: nat, c: nat, start: word, end: word, words: nat -> bv16, address: nat, n: nat)
    requires IsRun(info, devices, requests, replies) && a < b < c < |requests|
    requires forall k | a < k < b :: MovesNothing(requests[k]) || requests[k].AbortRequest?
    requires forall k | b < k < c :: MovesNothing(requests[k])
    requires !devices[a].regs.isSecure && !devices[a].regs.waitForExit && TempBlank(devices[a].flash)
    requires start <= end && end + 1 - start < 0x1_0000
    requires requests[a].DnLoad? && requests[a].wLength > 6 && requests[a].words == words
    requires RangePacket(COMMAND_PROG_START, 0x00, start, end) <= requests[a].packet
    requires requests[b].DnLoad? && requests[b].wLength >= 6
    requires RangePacket(COMMAND_DISP_DATA, 0x00, start, end) <= requests[b].packet
    requires requests[c].UpLoad?
    requires address == devices[a].regs.flash64KBPage * 0x1_0000 + start && n == (end + 1 - start) / 2
    requires address / 2 < FLASH_WORDS && address / 2 + n <= FLASH_WORDS && RangeFits(address / 2, n)
    ensures RangeHolds(devices[c + 1].flash.words, address / 2, n, words)
    ensures replies[c].words == seq(n, j requires 0 <= j => words(j))
    ensures OnlyTouched(devices[a].flash.words, devices[c + 1].flash.words, address / 2, n)
    ensures devices[c + 1].eeprom == devices[a].eeprom && devices[c + 1].regs.dfuState == DFU_IDLE
    ensures devices[a + 1].regs.startAddr == devices[c + 1].regs.startAddr == end
  {
    hide Transition;
    ProgramRequest(info, devices[a], requests[a], devices[a + 1], replies[a], start, end, words, address, n);
    KeptBetween(info, devices, requests, replies, a + 1, b, true);
    ReadSession(info, devices, requests, replies, b, c, start, end, address, n);
    RangeContents(devices[a].flash, address, n, words);
  }

  /** A read command and the upload that belongs to it. */
  lemma ReadSession(info: Info, devices: seq<Device>, requests: seq<Request>, replies: seq<Reply>,
                    b: nat, c: nat, start: word, end: word, address: nat, n: nat)
    requires IsRun(info, devices, requests, replies) && b < c < |requests|
    requires forall k | b < k < c :: MovesNothing(requests[k])
    requires !devices[b].regs.isSecure && !devices[b].regs.waitForExit
    requires requests[b].DnLoad? && requests[b].wLength >= 6
    requires RangePacket(COMMAND_DISP_DATA, 0x00, start, end) <= requests[b].packet
    requires requests[c].UpLoad? && start <= end && end + 1 - start < 0x1_0000
    requires address == devices[b].regs.flash64KBPage * 0x1_0000 + start && n == (end + 1 - start) / 2
    ensures devices[c + 1].eeprom == devices[b].eeprom && devices[c + 1].regs.dfuState == DFU_IDLE
    ensures devices[c + 1].regs.startAddr == end
    ensures devices[c + 1].flash == devices[b].flash && replies[c].words == WordsAt(devices[b].flash.words, address / 2, n)
  {
    hide Transition;
    ReadRequest(info, devices[b], requests[b], devices[b + 1], replies[b], 0x00, start, end);
    KeptBetween(info, devices, requests, replies, b + 1, c, false);
    RangeLength(devices[c].regs);
    UploadRequest(info, devices[c], requests[c], devices[c + 1], replies[c], address, n);
  }

  /** The same for the EEPROM: anywhere in a run the host writes a range of it with request `a`, asks
      for it with request `b` and reads it back with request `c`. It gets exactly the bytes sent, the
      cells outside the range are as before, and so is the flash. */
  lemma EepromSession(info: Info, devices: seq<Device>, requests: seq<Request>, replies: seq<Reply>,
                      a: nat, b: nat, c: nat, start: word, end: word, bytes: nat -> byte)
    requires IsRun(info, devices, requests, replies) && a < b < c < |requests|
    requires forall k | a < k < b :: MovesNothing(requests[k]) || requests[k].AbortRequest?
    requires forall k | b < k < c :: MovesNothing(requests[k])
    requires !devices[a].regs.isSecure && !devices[a].regs.waitForExit
    requires start <= end && end + 1 - start <= EEPROM_SIZE
    requires requests[a].DnLoad? && requests[a].wLength > 6 && requests[a].bytes == bytes
    requires RangePacket(COMMAND_PROG_START, 0x01, start, end) <= requests[a].packet
    requires requests[b].DnLoad? && requests[b].wLength >= 6
    requires RangePacket(COMMAND_DISP_DATA, 0x02, start, end) <= requests[b].packet
    requires requests[c].UpLoad?
    ensures replies[c].bytes == seq(end + 1 - start, k requires 0 <= k => bytes(k))
    ensures forall cell | 0 <= cell < EEPROM_SIZE && Behind(cell, start) >= end + 1 - start ::
      devices[c + 1].eeprom[cell] == devices[a].eeprom[cell]
    ensures devices[c + 1].flash == devices[a].flash && devices[c + 1].regs.dfuState == DFU_IDLE
    ensures devices[a + 1].regs.startAddr == devices[c + 1].regs.startAddr == (end + 1) % 0x1_0000
  {
    hide Transition;
    var n := end + 1 - start;
    EepromRequest(info, devices[a], requests[a], devices[a + 1], replies[a], start, end, bytes);
    KeptBetween(info, devices, requests, replies, a + 1, b, true);
    ReadRequest(info, devices[b], requests[b], devices[b + 1], replies[b], 0x02, start, end);
    KeptBetween(info, devices, requests, replies, b + 1, c, false);
    EepromUpload(info, devices[c], requests[c], devices[c + 1], replies[c]);
    EepromRoundTrip(devices[a].eeprom, start, n, bytes);
    forall cell | 0 <= cell < EEPROM_SIZE && Behind(cell, start) >= n
      ensures devices[c + 1].eeprom[cell] == devices[a].eeprom[cell]
    {
      EepromKept(devices[a].eeprom, start, n, bytes, cell);
    }
  }

  lemma EepromCommand(r: Regs, f: Flash, info: Info)
    requires Shape(r) && Valid(f) && !r.isSecure && r.sent.op == COMMAND_PROG_START && r.sent.data[0] == 0x01
    ensures CommandRegs(r, f.words, info) == WithAddresses(r).(dfuState := DFU_DNLOAD_IDLE)
    ensures CommandFlash(r, f) == f
  {
  }

  lemma EepromDispatched(info: Info, d: Device, wLength: word, packet: seq<byte>, start: word, end: word)
    requires Good(d) && !d.regs.isSecure && !d.regs.waitForExit && wLength > 6
    requires RangePacket(COMMAND_PROG_START, 0x01, start, end) <= packet
    ensures packet != []
    ensures var (q, f) := Dispatched(d.regs, d.flash, info, wLength, packet);
      && f == d.flash && q.dfuState == DFU_DNLOAD_IDLE && q.sent.dataSize == wLength - 6 && q.sent.data[0] == 0x01
      && q.startAddr == start && q.endAddr == end && !q.isSecure && !q.waitForExit
  {
    hide CommandRegs, CommandFlash, Loaded, Dispatched;
    var r := d.regs.(sent := d.regs.sent.(dataSize := wLength));
    var loaded := Loaded(r, packet);
    RangeLoaded(r, COMMAND_PROG_START, 0x01, start, end, packet);
    assert loaded == r.(sent := loaded.sent) && loaded.sent.dataSize == wLength - 6;
    EepromCommand(loaded, d.flash, info);
    DispatchedOnce(info, d, wLength, packet);
  }

  lemma EepromRequest(info: Info, d: Device, req: Request, after: Device, reply: Reply, start: word, end: word,
                      bytes: nat -> byte)
    requires Good(d) && !d.regs.isSecure && !d.regs.waitForExit
    requires req.DnLoad? && req.wLength > 6 && req.bytes == bytes
    requires RangePacket(COMMAND_PROG_START, 0x01, start, end) <= req.packet
    requires start <= end && end + 1 - start <= EEPROM_SIZE
    requires Transition(info, d, req, after, reply)
    ensures !after.regs.isSecure && !after.regs.waitForExit && after.flash == d.flash
    ensures after.eeprom == EepromAfter(d.eeprom, start, end + 1 - start, bytes)
    ensures after.regs.startAddr == (end + 1) % 0x1_0000
  {
    hide EepromAfter, Programmed, Dispatched;
    EepromDispatched(info, d, req.wLength, req.packet, start, end);
  }

  lemma EepromUpload(info: Info, d: Device, req: Request, after: Device, reply: Reply)
    requires Good(d) && req.UpLoad? && Transition(info, d, req, after, reply)
    requires d.regs.dfuState == DFU_UPLOAD_IDLE && d.regs.sent.data[0] == 0x02
    requires d.regs.startAddr <= d.regs.endAddr && d.regs.endAddr + 1 - d.regs.startAddr <= EEPROM_SIZE
    ensures after.flash == d.flash && after.eeprom == d.eeprom && after.regs.dfuState == DFU_IDLE
    ensures reply.bytes == EepromBytes(d.eeprom, d.regs.startAddr, d.regs.endAddr + 1 - d.regs.startAddr)
    ensures after.regs.startAddr == (d.regs.endAddr + 1) % 0x1_0000
  {
  }

  // ---- the other commands, as a host uses them --------------------------------------------------

  /** The registers when the command of a download is dispatched. */
  function Issued(d: Device, req: Request): (r: Regs)
    requires Good(d) && req.DnLoad? && req.packet != []
    ensures Shape(r)
  {
    Loaded(d.regs.(sent := d.regs.sent.(dataSize := req.wLength)), req.packet)
  }

  /** The parameters sent are the ones the command gets; those not sent are the ones of the command
      before, and every byte taken counts against the size announced. */
  lemma ParametersArrive(d: Device, req: Request, prefix: seq<byte>)
    requires Good(d) && req.DnLoad? && 0 < |prefix| <= 6 && prefix <= req.packet
    ensures var r := Issued(d, req);
      && r == d.regs.(sent := r.sent) && r.sent.op == prefix[0]
      && (forall i | 0 <= i < |prefix| - 1 :: r.sent.data[i] == prefix[i + 1])
      && (forall i | |req.packet| - 1 <= i < 5 :: r.sent.data[i] == d.regs.sent.data[i])
      && (|req.packet| <= 6 && |req.packet| <= req.wLength ==> r.sent.dataSize == req.wLength - |req.packet|)
  {
    forall i | 0 <= i < |prefix| - 1 ensures Issued(d, req).sent.data[i] == prefix[i + 1] {
      assert Parameters(req.packet)[i] == req.packet[i + 1] == prefix[i + 1];
    }
  }

  /** Is this a download that carries the given command? */
  predicate Carries(req: Request, prefix: seq<byte>) {
    req.DnLoad? && req.wLength > 0 && prefix <= req.packet
  }

  /** A command that does not begin a download of firmware does nothing but what the command does. */
  lemma CommandDone(info: Info, d: Device, req: Request, after: Device, reply: Reply)
    requires Good(d) && !d.regs.waitForExit && req.DnLoad? && req.wLength > 0 && req.packet != []
    requires CommandRegs(Issued(d, req), d.flash.words, info).dfuState != DFU_DNLOAD_IDLE
    requires Transition(info, d, req, after, reply)
    ensures after == Device(CommandRegs(Issued(d, req), d.flash.words, info), CommandFlash(Issued(d, req), d.flash), d.eeprom)
    ensures reply == SILENCE
  {
    hide CommandRegs, CommandFlash, Loaded;
    DispatchedOnce(info, d, req.wLength, req.packet);
  }

  /** A chip erase clears the flag of any device that is not leaving the bootloader, and leaves
      the application section blank and everything else as it was. */
  lemma ChipEraseUnlocks(info: Info, d: Device, req: Request, after: Device, reply: Reply)
    requires Good(d) && !d.regs.waitForExit && TempBlank(d.flash) && d.regs.dfuState != DFU_DNLOAD_IDLE
    requires Carries(req, [COMMAND_WRITE, 0x00, 0xFF]) && Transition(info, d, req, after, reply)
    ensures Good(after) && ApplicationBlank(after.flash) && after.eeprom == d.eeprom
    ensures forall w | BOOT_START_ADDR / 2 <= w < FLASH_WORDS :: after.flash.words[w] == d.flash.words[w]
    ensures after.regs == d.regs.(sent := after.regs.sent, isSecure := false)
  {
    ParametersArrive(d, req, [COMMAND_WRITE, 0x00, 0xFF]);
    CommandDone(info, d, req, after, reply);
    EraseLeavesBlank(d.flash);
  }

  /** A secure device refuses every other command but the information ones: it reports the error
      and nothing else changes. */
  lemma SecureRefuses(info: Info, d: Device, req: Request, after: Device, reply: Reply)
    requires Good(d) && d.regs.isSecure && !d.regs.waitForExit
    requires req.DnLoad? && req.wLength > 0 && req.packet != [] && Transition(info, d, req, after, reply)
    requires req.packet[0] != COMMAND_READ
    requires req.packet[0] == COMMAND_WRITE ==> |req.packet| >= 3 && req.packet[1..3] != [0x00, 0xFF]
    ensures after == d.(regs := d.regs.(sent := after.regs.sent, dfuState := DFU_ERROR, dfuStatus := ERR_WRITE))
  {
    ParametersArrive(d, req, if |req.packet| >= 3 then req.packet[..3] else req.packet[..1]);
    CommandDone(info, d, req, after, reply);
  }

  /** What the host reads about a refused command until it clears the error. */
  lemma ErrorIsReported(info: Info, devices: seq<Device>, requests: seq<Request>, replies: seq<Reply>, a: nat)
    requires IsRun(info, devices, requests, replies) && a + 5 < |requests|
    requires devices[a].regs.dfuState == DFU_ERROR && devices[a].regs.dfuStatus == ERR_WRITE
    requires requests[a].GetStatus? && requests[a + 1].ClrStatus? && requests[a + 2].GetStatus?
    requires requests[a + 3].GetState? && requests[a + 4].AbortRequest? && requests[a + 5].GetState?
    ensures replies[a].bytes == [0x03, 0x00, 0x00, 0x00, 0x0A, 0x00]
    ensures replies[a + 2].bytes == [0x00, 0x00, 0x00, 0x00, 0x0A, 0x00]
    ensures replies[a + 3].bytes == [0x0A] && replies[a + 5].bytes == [0x02]
  {
    assert Transition(info, devices[a], requests[a], devices[a + 1], replies[a]);
    assert Transition(info, devices[a + 1], requests[a + 1], devices[a + 2], replies[a + 1]);
    assert Transition(info, devices[a + 2], requests[a + 2], devices[a + 3], replies[a + 2]);
    assert Transition(info, devices[a + 3], requests[a + 3], devices[a + 4], replies[a + 3]);
    assert Transition(info, devices[a + 4], requests[a + 4], devices[a + 5], replies[a + 4]);
    assert Transition(info, devices[a + 5], requests[a + 5], devices[a + 6], replies[a + 5]);
  }

  /** An information command and the upload after it return the byte asked for, even while the
      device is secure: the bootloader's version and two identification bytes, or a signature byte. */
  lemma InformationIsRead(info: Info, devices: seq<Device>, requests: seq<Request>, replies: seq<Reply>,
                          a: nat, c: nat, table: byte, index: byte)
    requires IsRun(info, devices, requests, replies) && a < c < |requests|
    requires !devices[a].regs.waitForExit && devices[a].regs.dfuState == DFU_IDLE
    requires forall k | a < k < c :: MovesNothing(requests[k]) || requests[k].AbortRequest?
    requires Carries(requests[a], [COMMAND_READ, table, index]) && requests[c].UpLoad?
    requires (table == 0 && index < 3) || (table == 1 && 0 <= index - 0x30 < |info.signature|)
    ensures replies[c].bytes == [if table == 0 then (if index == 0 then 0x20 else if index == 1 then 0xDC else 0xFB)
                                 else info.signature[index - 0x30]]
    ensures devices[c + 1].flash == devices[a].flash && devices[c + 1].eeprom == devices[a].eeprom
  {
    ParametersArrive(devices[a], requests[a], [COMMAND_READ, table, index]);
    CommandDone(info, devices[a], requests[a], devices[a + 1], replies[a]);
    KeptBetween(info, devices, requests, replies, a + 1, c, true);
    assert Transition(info, devices[c], requests[c], devices[c + 1], replies[c]);
  }

  /** The host chooses the 64 KiB page that the addresses of the commands after it are in. */
  lemma BaseAddressIsSet(info: Info, d: Device, req: Request, after: Device, reply: Reply, page: byte)
    requires Good(d) && !d.regs.waitForExit && !d.regs.isSecure && d.regs.dfuState != DFU_DNLOAD_IDLE
    requires Carries(req, [COMMAND_CHANGE_BASE_ADDR, 0x03, 0x00, page]) && Transition(info, d, req, after, reply)
    ensures after == d.(regs := d.regs.(sent := after.regs.sent, flash64KBPage := page))
  {
    ParametersArrive(d, req, [COMMAND_CHANGE_BASE_ADDR, 0x03, 0x00, page]);
    CommandDone(info, d, req, after, reply);
  }

  /** The commands there are, with their first two parameters. */
  predicate Known(op: byte, first: byte, second: byte) {
    || (op == COMMAND_PROG_START && (first == 0x00 || first == 0x01))
    || (op == COMMAND_DISP_DATA && (first == 0x00 || first == 0x01 || first == 0x02))
    || (op == COMMAND_WRITE && (first == 0x03 || (first == 0x00 && second == 0xFF)))
    || (op == COMMAND_READ && (first == 0x00 || first == 0x01))
    || (op == COMMAND_CHANGE_BASE_ADDR && first == 0x03 && second == 0x00)
  }

  /** Any other command has no effect. */
  lemma UnknownIsIgnored(info: Info, d: Device, req: Request, after: Device, reply: Reply,
                         op: byte, first: byte, second: byte)
    requires Good(d) && !d.regs.waitForExit && !d.regs.isSecure && d.regs.dfuState != DFU_DNLOAD_IDLE
    requires !Known(op, first, second) && Carries(req, [op, first, second]) && Transition(info, d, req, after, reply)
    ensures after == d.(regs := d.regs.(sent := after.regs.sent)) && reply == SILENCE
  {
    ParametersArrive(d, req, [op, first, second]);
    CommandDone(info, d, req, after, reply);
  }

  /** A word is blank exactly when both its bytes are. */
  lemma BlankWord(words: seq<bv16>, w: nat)
    requires |words| == FLASH_WORDS && w < FLASH_WORDS
    ensures words[w] == BLANK <==> !ByteNotBlank(words, 2 * w) && !ByteNotBlank(words, 2 * w + 1)
  {
    assert WordOf(2 * w) == w && WordOf(2 * w + 1) == w;
    BothBytes(words[w]);
  }

  lemma BothBytes(w: bv16)
    ensures w == 0xFFFF <==> w & 0x00FF == 0x00FF && w & 0xFF00 == 0xFF00
  {
  }

  lemma BlankExactly(f: Flash)
    requires Valid(f)
    ensures FirstNotBlank(f.words, 0) == BOOT_START_ADDR <==> ApplicationBlank(f)
  {
    hide FirstNotBlank, ByteNotBlank;
    var a := FirstNotBlank(f.words, 0);
    if a < BOOT_START_ADDR {
      BlankWord(f.words, a / 2);
      assert a == 2 * (a / 2) + a % 2 && f.words[a / 2] != BLANK;
    } else {
      forall w | 0 <= w < BOOT_START_ADDR / 2 ensures f.words[w] == BLANK {
        BlankWord(f.words, w);
        assert !ByteNotBlank(f.words, 2 * w) && !ByteNotBlank(f.words, 2 * w + 1);
      }
    }
  }

  lemma BlankCheckRequest(info: Info, d: Device, req: Request, after: Device, reply: Reply)
    requires Good(d) && !d.regs.waitForExit && !d.regs.isSecure && d.regs.dfuState == DFU_IDLE
    requires Carries(req, [COMMAND_DISP_DATA, 0x01]) && Transition(info, d, req, after, reply)
    ensures after.flash == d.flash && after.eeprom == d.eeprom && Shape(after.regs) && after.regs.sent.data[0] == 0x01
    ensures var a := FirstNotBlank(d.flash.words, 0);
      after.regs == if a < BOOT_START_ADDR then
        d.regs.(sent := after.regs.sent, flash64KBPage := a / 0x1_0000, startAddr := a % 0x1_0000,
                dfuState := DFU_ERROR, dfuStatus := ERR_CHECK_ERASED)
      else d.regs.(sent := after.regs.sent)
  {
    hide FirstNotBlank, Loaded;
    ParametersArrive(d, req, [COMMAND_DISP_DATA, 0x01]);
    CommandDone(info, d, req, after, reply);
  }

  /** A blank check changes nothing if the application section is blank. Otherwise the host finds the
      error in the status, and the next upload returns the address of the first byte that is not
      blank, low byte first, within the 64 KiB page that is now selected. */
  lemma BlankCheckReports(info: Info, devices: seq<Device>, requests: seq<Request>, replies: seq<Reply>, a: nat, c: nat)
    requires IsRun(info, devices, requests, replies) && a + 1 < c < |requests|
    requires !devices[a].regs.waitForExit && !devices[a].regs.isSecure && devices[a].regs.dfuState == DFU_IDLE
    requires forall k | a < k < c :: MovesNothing(requests[k])
    requires Carries(requests[a], [COMMAND_DISP_DATA, 0x01]) && requests[a + 1].GetStatus? && requests[c].UpLoad?
    ensures devices[c + 1].flash == devices[a].flash && devices[c + 1].eeprom == devices[a].eeprom
    ensures ApplicationBlank(devices[a].flash) ==>
      && replies[a + 1].bytes == [devices[a].regs.dfuStatus, 0, 0, 0, DFU_IDLE, 0]
      && replies[c].bytes == [devices[a].regs.responseByte]
      && devices[a + 1].regs == devices[a].regs.(sent := devices[a + 1].regs.sent)
    ensures !ApplicationBlank(devices[a].flash) ==>
      && replies[a + 1].bytes == [ERR_CHECK_ERASED, 0, 0, 0, DFU_ERROR, 0]
      && |replies[c].bytes| == 2
      && var address := devices[c + 1].regs.flash64KBPage * 0x1_0000 + Word16(replies[c].bytes[1], replies[c].bytes[0]);
         && address < BOOT_START_ADDR && ByteNotBlank(devices[a].flash.words, address)
         && forall b | 0 <= b < address :: !ByteNotBlank(devices[a].flash.words, b)
  {
    hide FirstNotBlank, ByteNotBlank, Dispatched, Transferred;
    BlankExactly(devices[a].flash);
    var address := FirstNotBlank(devices[a].flash.words, 0);
    BlankCheckRequest(info, devices[a], requests[a], devices[a + 1], replies[a]);
    assert Transition(info, devices[a + 1], requests[a + 1], devices[a + 2], replies[a + 1]);
    KeptBetween(info, devices, requests, replies, a + 1, c, false);
    assert Transition(info, devices[c], requests[c], devices[c + 1], replies[c]);
    assert address % 0x1_0000 / 256 * 256 + address % 0x1_0000 % 256 == address % 0x1_0000;
  }

  /** Requests that ask or clear, without any download. */
  predicate Queries(req: Request) {
    req.GetStatus? || req.GetState? || req.ClrStatus? || req.OtherRequest? || req.AbortRequest?
  }

  lemma {:induction false} QueriesKeep(info: Info, devices: seq<Device>, requests: seq<Request>, replies: seq<Reply>, i: nat, j: nat)
    requires IsRun(info, devices, requests, replies) && i <= j <= |requests|
    requires forall k | i <= k < j :: Queries(requests[k])
    ensures var d, e := devices[i], devices[j];
      && e.flash == d.flash && e.eeprom == d.eeprom
      && e.regs == d.regs.(sent := d.regs.sent.(dataSize := e.regs.sent.dataSize),
                           dfuStatus := e.regs.dfuStatus, dfuState := e.regs.dfuState)
    decreases j
  {
    if i < j {
      QueriesKeep(info, devices, requests, replies, i, j - 1);
      assert Transition(info, devices[j - 1], requests[j - 1], devices[j], replies[j - 1]);
    }
  }

  lemma StartCommand(info: Info, d: Device, req: Request, after: Device, reply: Reply,
                     how: byte, unused: byte, high: byte, low: byte)
    requires Good(d) && !d.regs.waitForExit && !d.regs.isSecure && d.regs.dfuState != DFU_DNLOAD_IDLE
    requires Carries(req, [COMMAND_WRITE, 0x03, how, unused, high, low]) && Transition(info, d, req, after, reply)
    ensures after.flash == d.flash && after.eeprom == d.eeprom && after.regs.waitForExit && !after.regs.isSecure
    ensures after.regs.dfuState != DFU_DNLOAD_IDLE && Shape(after.regs)
    ensures after.regs.sent.op == COMMAND_WRITE && after.regs.sent.data == [0x03, how, unused, high, low]
    ensures how == 0 ==> after.regs.runBootloader == d.regs.runBootloader
  {
    var prefix: seq<byte> := [COMMAND_WRITE, 0x03, how, unused, high, low];
    ParametersArrive(d, req, prefix);
    assert Issued(d, req).sent.data == prefix[1..];
    CommandDone(info, d, req, after, reply);
  }

  /** The empty download after it carries it out. */
  lemma StartCarriedOut(info: Info, d: Device, req: Request, after: Device, reply: Reply,
                        how: byte, unused: byte, high: byte, low: byte)
    requires Good(d) && d.regs.waitForExit && !d.regs.isSecure && d.regs.sent.op == COMMAND_WRITE
    requires d.regs.sent.data == [0x03, how, unused, high, low] && req.DnLoad? && req.wLength == 0
    requires Transition(info, d, req, after, reply)
    ensures after.flash == d.flash && after.eeprom == d.eeprom && !after.regs.waitForExit
    ensures if how == 0 then after.regs.runBootloader == d.regs.runBootloader
            else !after.regs.runBootloader && after.regs.appStart == high * 256 + low
  {
  }

  /** The host starts the application with a jump: the bootloader goes on after the command and
      leaves, for the address given, once the empty download after it has been answered. With a
      start by reset it goes on until the watchdog bites. */
  lemma ApplicationIsStarted(info: Info, devices: seq<Device>, requests: seq<Request>, replies: seq<Reply>,
                             a: nat, c: nat, how: byte, unused: byte, high: byte, low: byte)
    requires IsRun(info, devices, requests, replies) && a < c < |requests|
    requires !devices[a].regs.waitForExit && !devices[a].regs.isSecure && devices[a].regs.dfuState != DFU_DNLOAD_IDLE
    requires forall k | a < k < c :: Queries(requests[k])
    requires Carries(requests[a], [COMMAND_WRITE, 0x03, how, unused, high, low]) && requests[c].DnLoad? && requests[c].wLength == 0
    ensures forall k | a < k <= c :: devices[k].regs.waitForExit
    ensures !devices[c + 1].regs.waitForExit
    ensures if how == 0 then devices[c + 1].regs.runBootloader == devices[a].regs.runBootloader
            else !devices[c + 1].regs.runBootloader && devices[c + 1].regs.appStart == high * 256 + low
    ensures devices[c + 1].flash == devices[a].flash && devices[c + 1].eeprom == devices[a].eeprom
  {
    hide Transition;
    StartCommand(info, devices[a], requests[a], devices[a + 1], replies[a], how, unused, high, low);
    forall k | a < k <= c ensures devices[k].regs.waitForExit {
      QueriesKeep(info, devices, requests, replies, a + 1, k);
    }
    QueriesKeep(info, devices, requests, replies, a + 1, c);
    StartCarriedOut(info, devices[c], requests[c], devices[c + 1], replies[c], how, unused, high, low);
  }

  /** A download that is not empty takes a start back: the device deals with it as if it had not been
      asked to leave. */
  lemma OtherDownloadTakesStartBack(info: Info, d: Device, req: Request, after: Device, reply: Reply)
    requires Good(d) && d.regs.waitForExit && !d.regs.isSecure
    requires d.regs.sent.op == COMMAND_WRITE && d.regs.sent.data[0] == 0x03
    requires req.DnLoad? && req.wLength > 0 && req.packet != []
    ensures Transition(info, d, req, after, reply)
      <==> Transition(info, d.(regs := d.regs.(waitForExit := false)), req, after, reply)
  {
    hide Loaded, Transferred;
    var r := d.regs.(sent := d.regs.sent.(dataSize := req.wLength));
    assert CommandRegs(r, d.flash.words, info) == r && CommandFlash(r, d.flash) == d.flash;
  }

  /** An empty download ends a download of firmware and does nothing else. */
  lemma EmptyDownloadEnds(info: Info, d: Device, req: Request, after: Device, reply: Reply)
    requires Good(d) && !d.regs.waitForExit && req.DnLoad? && req.wLength == 0 && Transition(info, d, req, after, reply)
    ensures after == d.(regs := d.regs.(sent := d.regs.sent.(dataSize := 0),
                                        dfuState := if d.regs.dfuState == DFU_DNLOAD_IDLE then DFU_IDLE else d.regs.dfuState))
  {
  }

  /** Outside a range of `n` words, the rest of the pages it touches is blank and all others are
      unchanged. */
  ghost predicate OnlyTouched(before: seq<bv16>, after: seq<bv16>, first: nat, n: nat)
    requires |before| == |after|
  {
    forall w | 0 <= w < |before| && !(first <= w < first + n) :: after[w] ==
      if PageOfWord(w) == PageOfWord(first) || (PageOfWord(first) <= PageOfWord(w) < PageOfWord(first) + PagesTouched(n))
      then BLANK else before[w]
  }

  /** The flash after the erase of the first page and the download that follows it. */
  lemma RangeContents(f: Flash, address: nat, n: nat, words: nat -> bv16)
    requires Valid(f) && address / 2 < FLASH_WORDS && address / 2 + n <= FLASH_WORDS && RangeFits(address / 2, n)
    ensures var first, memory := address / 2, Downloaded(PageErase(f, address).words, address / 2, n, words);
      && RangeHolds(memory, first, n, words)
      && WordsAt(memory, first, n) == seq(n, j requires 0 <= j => words(j))
      && OnlyTouched(f.words, memory, first, n)
  {
    var first := address / 2;
    var erased := PageErase(f, address).words;
    assert WordOf(address) == first;
    RightWhenItFits(erased, first, n, words);
    DownloadThenRead(erased, first, n, words);
    forall w | 0 <= w < FLASH_WORDS && !(first <= w < first + n)
      ensures Downloaded(erased, first, n, words)[w] ==
        if PageOfWord(w) == PageOfWord(first) || (PageOfWord(first) <= PageOfWord(w) < PageOfWord(first) + PagesTouched(n))
        then BLANK else f.words[w]
    {
      DownloadFrame(erased, first, n, words, w);
    }
  }

  lemma UploadRequest(info: Info, d: Device, req: Request, after: Device, reply: Reply, address: nat, n: nat)
    requires Good(d) && req.UpLoad? && Transition(info, d, req, after, reply)
    requires d.regs.dfuState == DFU_UPLOAD_IDLE && d.regs.sent.data[0] == 0x00
    requires address == FlashAddress(d.regs) && n == BytesRemaining(d.regs) / 2
    ensures after.flash == d.flash && reply.words == WordsAt(d.flash.words, address / 2, n)
    ensures after.eeprom == d.eeprom && after.regs.dfuState == DFU_IDLE && after.regs.startAddr == d.regs.endAddr
  {
  }

  lemma ProgramCommand(r: Regs, f: Flash, info: Info)
    requires Shape(r) && Valid(f) && !r.isSecure && r.sent.op == COMMAND_PROG_START && r.sent.data[0] == 0x00
    ensures CommandRegs(r, f.words, info) == WithAddresses(r).(dfuState := DFU_DNLOAD_IDLE)
    ensures CommandRegs(r, f.words, info).sent == r.sent
    ensures CommandFlash(r, f) == PageErase(f, FlashAddress(WithAddresses(r)))
  {
  }

  /** A device that is not about to leave processes the command of a download once. */
  lemma DispatchedOnce(info: Info, d: Device, wLength: word, packet: seq<byte>)
    requires Good(d) && !d.regs.waitForExit && wLength > 0 && packet != []
    ensures var loaded := Loaded(d.regs.(sent := d.regs.sent.(dataSize := wLength)), packet);
      Dispatched(d.regs, d.flash, info, wLength, packet) ==
        (CommandRegs(loaded, d.flash.words, info), CommandFlash(loaded, d.flash))
  {
  }

  /** The registers and flash once a programming command has been processed. */
  lemma ProgramDispatched(info: Info, d: Device, wLength: word, packet: seq<byte>, start: word, end: word)
    requires Good(d) && !d.regs.isSecure && !d.regs.waitForExit && wLength > 6
    requires RangePacket(COMMAND_PROG_START, 0x00, start, end) <= packet
    ensures packet != []
    ensures var (q, f) := Dispatched(d.regs, d.flash, info, wLength, packet);
      && f == PageErase(d.flash, d.regs.flash64KBPage * 0x1_0000 + start)
      && q.dfuState == DFU_DNLOAD_IDLE && q.sent.dataSize == wLength - 6 && q.sent.data[0] == 0x00
      && q.startAddr == start && q.endAddr == end
      && q.flash64KBPage == d.regs.flash64KBPage && !q.isSecure && !q.waitForExit
  {
    hide CommandRegs, CommandFlash, Loaded, Dispatched, PageErase;
    var r := d.regs.(sent := d.regs.sent.(dataSize := wLength));
    var loaded := Loaded(r, packet);
    RangeLoaded(r, COMMAND_PROG_START, 0x00, start, end, packet);
    assert loaded == r.(sent := loaded.sent) && loaded.sent.dataSize == wLength - 6;
    ProgramCommand(loaded, d.flash, info);
    DispatchedOnce(info, d, wLength, packet);
  }

  lemma ProgramRequest(info: Info, d: Device, req: Request, after: Device, reply: Reply, start: word, end: word,
                       words: nat -> bv16, address: nat, n: nat)
    requires Good(d) && !d.regs.isSecure && !d.regs.waitForExit && TempBlank(d.flash)
    requires req.DnLoad? && req.wLength > 6 && req.words == words && RangePacket(COMMAND_PROG_START, 0x00, start, end) <= req.packet
    requires start <= end && end + 1 - start < 0x1_0000
    requires Transition(info, d, req, after, reply)
    requires address == d.regs.flash64KBPage * 0x1_0000 + start && n == (end + 1 - start) / 2
    requires address / 2 < FLASH_WORDS && address / 2 + n <= FLASH_WORDS
    ensures !after.regs.isSecure && !after.regs.waitForExit && after.regs.flash64KBPage == d.regs.flash64KBPage
    ensures after.flash.words == Downloaded(PageErase(d.flash, address).words, address / 2, n, words)
    ensures after.eeprom == d.eeprom && after.regs.startAddr == end
  {
    ProgramDispatched(info, d, req.wLength, req.packet, start, end);
    EraseTwice(d.flash, address);
    var (q, f) := Dispatched(d.regs, d.flash, info, req.wLength, req.packet);
    RangeLength(q);
    assert f == PageErase(d.flash, address) && Prepared(f, address / 2, n);
    FlashWritten(q, f, d.eeprom, words, req.bytes, after, address, n);
  }

  lemma FlashWritten(r: Regs, f: Flash, eeprom: seq<byte>, words: nat -> bv16, bytes: nat -> byte, d: Device,
                     address: nat, n: nat)
    requires Shape(r) && Valid(f) && |eeprom| == EEPROM_SIZE && r.sent.data[0] == 0x00
    requires d == Transferred(r, f, eeprom, words, bytes)
    requires FlashAddress(r) == address && BytesRemaining(r) / 2 == n && Prepared(f, address / 2, n)
    ensures d.flash.words == Downloaded(f.words, address / 2, n, words) && d.regs == r.(startAddr := r.endAddr)
    ensures d.eeprom == eeprom
  {
    ProgrammedIsDownloaded(f, address / 2, n, words);
  }

  /** Erasing a page again changes nothing. */
  lemma EraseTwice(f: Flash, address: nat)
    requires Valid(f) && address / 2 < FLASH_WORDS
    ensures PageErase(PageErase(f, address), 2 * (address / 2)).words == PageErase(f, address).words
  {
    assert WordOf(2 * (address / 2)) == WordOf(address);
  }

  lemma ReadRequest(info: Info, d: Device, req: Request, after: Device, reply: Reply, kind: byte,
                    start: word, end: word)
    requires Good(d) && !d.regs.isSecure && !d.regs.waitForExit && (kind == 0x00 || kind == 0x02)
    requires req.DnLoad? && req.wLength >= 6 && RangePacket(COMMAND_DISP_DATA, kind, start, end) <= req.packet
    requires Transition(info, d, req, after, reply)
    ensures !after.regs.waitForExit && after.eeprom == d.eeprom
    ensures after.flash == d.flash && after.regs.dfuState == DFU_UPLOAD_IDLE && Shape(after.regs) && after.regs.sent.data[0] == kind
    ensures after.regs.startAddr == start && after.regs.endAddr == end && after.regs.flash64KBPage == d.regs.flash64KBPage
  {
    var r := d.regs.(sent := d.regs.sent.(dataSize := req.wLength));
    RangeLoaded(r, COMMAND_DISP_DATA, kind, start, end, req.packet);
  }
}
