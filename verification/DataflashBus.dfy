/** The board's two dataflash ICs on one SPI bus, and the driver that talks to them. */
module DataflashBus {
  import opened Bytes
  import opened DataflashChip

  const TOTALCHIPS := 2
  const NO_CHIP: byte := 3
  const CHIP1: byte := 2
  const CHIP2: byte := 1
  const MEDIA_PAGES := PAGES * TOTALCHIPS

  type Chips = s: seq<Chip> | |s| == TOTALCHIPS ghost witness BlankChips()

  ghost function BlankChips(): (s: seq<Chip>)
    ensures |s| == TOTALCHIPS
  {
    var blank: Page := seq(PAGE_SIZE, _ => 0);
    var chip := Chip(BlankMemory(), blank, blank, Idle, NoCommand, false);
    [chip, chip]
  }

  function MaskOf(chip: nat): byte
    requires chip < TOTALCHIPS
  {
    if chip == 0 then CHIP1 else CHIP2
  }

  // ---- the three address bytes --------------------------------------------------------

  function AddressHigh(page: word): byte {
    page / 2 / 32 % 256
  }

  function AddressMiddle(page: word, offset: word): byte {
    Or(page / 2 * 8 % 0x1_0000, offset / 256) % 256
  }

  function AddressLow(offset: word): byte {
    offset % 256
  }

  lemma MiddleByte(page: word, offset: word)
    requires page < MEDIA_PAGES && offset < 2048
    ensures AddressMiddle(page, offset) == page / 2 % 32 * 8 + offset / 256
  {
    var p, high := page / 2, offset / 256;
    EightTimes(p, high);
    DivModUnique(p * 8, 0x1_0000, 0, p * 8);
    DivModUnique(p * 8 + high, 256, p / 32, p % 32 * 8 + high);
  }

  lemma EightTimes(p: nat, high: nat)
    requires high < 8
    ensures Or(p * 8, high) == p * 8 + high
    ensures p * 8 + high == p / 32 * 256 + (p % 32 * 8 + high)
  {
    assert Pow2(0) == 1 && Pow2(1) == 2 && Pow2(2) == 4 && Pow2(3) == 8;
    OrDisjoint(p, high, 3);
    assert p == p / 32 * 32 + p % 32;
  }

  /** The chip recovers the page within the chip and the byte offset from the address bytes. */
  lemma AddressRoundTrip(page: word, offset: word)
    requires page < MEDIA_PAGES && offset < 2048
    ensures DecodePage(AddressHigh(page), AddressMiddle(page, offset)) == page / 2
    ensures DecodeOffset(AddressMiddle(page, offset), AddressLow(offset)) == offset
  {
    MiddleByte(page, offset);
    var p := page / 2;
    assert p / 32 < 256 && p == p / 32 * 32 + p % 32;
    assert offset / 256 < 8;
    var m := AddressMiddle(page, offset);
    assert m / 8 == p % 32 && m % 8 == offset / 256;
  }

  /** The select mask of the chip that holds a page of the media, if there is such a page. */
  function MaskOfPage(page: word): byte {
    if page >= MEDIA_PAGES then NO_CHIP else MaskOf(page % 2)
  }

  /** The page that the selected chip recovers from the address bytes. */
  function LocalPage(page: word, offset: word): PageIndex {
    DecodePage(AddressHigh(page), AddressMiddle(page, offset))
  }

  /** The pages of the media and the pages of the two chips correspond one to one: different pages
      differ in the chip selected or in the page it recovers, and every page of a chip is reached. */
  lemma PagesCorrespond(p: word, q: word, offset: word, chip: nat, local: PageIndex)
    requires p < MEDIA_PAGES && q < MEDIA_PAGES && offset < 2048 && chip < TOTALCHIPS
    ensures MaskOfPage(p) == MaskOfPage(q) && LocalPage(p, offset) == LocalPage(q, offset) <==> p == q
    ensures var page := local * 2 + chip;
      page < MEDIA_PAGES && MaskOfPage(page) == MaskOf(chip) && LocalPage(page, offset) == local
  {
    hide LocalPage;
    LocalPageIs(p, offset);
    LocalPageIs(q, offset);
    LocalPageIs(local * 2 + chip, offset);
    HalvesDetermine(p, q);
  }

  lemma LocalPageIs(page: word, offset: word)
    requires page < MEDIA_PAGES && offset < 2048
    ensures LocalPage(page, offset) == page / 2
  {
    AddressRoundTrip(page, offset);
  }

  lemma HalvesDetermine(p: nat, q: nat)
    ensures p % 2 == q % 2 && p / 2 == q / 2 <==> p == q
  {
  }

  class Dataflash {
    var chips: Chips
    /** The chip select port bits: `MaskOf` the selected chip, or NO_CHIP. */
    var select: byte

    /** Is a chip so slow that its internal transfers outlast everything sent to the other chip?
        For any other chip time passes with every transfer on the bus. */
    const outlasting: nat -> bool

    /** Takes over the two ICs as they are and deselects both. */
    constructor (chips: Chips, outlasting: nat -> bool)
      ensures this.chips == chips && this.outlasting == outlasting && select == NO_CHIP
    {
      this.chips := chips;
      this.outlasting := outlasting;
      select := NO_CHIP;
    }

    predicate Selected(i: nat)
      requires i < TOTALCHIPS
      reads this
    {
      select == MaskOf(i)
    }

    predicate ChipSelected()
      reads this
    {
      select == CHIP1 || select == CHIP2
    }

    function Current(): nat
      requires ChipSelected()
      reads this
    {
      if select == CHIP1 then 0 else 1
    }

    /** Chip `i` as it will be once its background operation is over. */
    ghost function View(i: nat): Chip
      requires i < TOTALCHIPS
      reads this
    {
      Settled(chips[i])
    }

    /** A chip that is not selected has no command under way. */
    predicate LinesQuiet()
      reads this
    {
      && (!Selected(0) ==> chips[0].command == NoCommand)
      && (!Selected(1) ==> chips[1].command == NoCommand)
    }

    twostate predicate Undisturbed(i: nat)
      requires i < TOTALCHIPS
      reads this
    {
      && View(i) == old(View(i))
      && chips[i].command == old(chips[i].command)
      && Calmer(old(chips[i].activity), chips[i].activity)
      && (outlasting(i) ==> chips[i].activity == old(chips[i].activity))
    }

    /** The end of the current command must not start a second internal transfer. */
    predicate MayRelease()
      reads this
    {
      && (Selected(0) && Starts(chips[0].command) ==> chips[0].activity.Idle?)
      && (Selected(1) && Starts(chips[1].command) ==> chips[1].activity.Idle?)
    }

    /** Chip `i` after a transfer with the other chip. */
    function Passed(i: nat, c: Chip): Chip {
      if outlasting(i) then c else Tick(c)
    }

    method TransferByte(b: byte) returns (r: byte)
      requires ChipSelected()
      modifies this
      ensures select == old(select)
      ensures chips[Current()] == Tick(Clock(old(chips[Current()]), b))
      ensures chips[1 - Current()] == Passed(1 - Current(), old(chips[1 - Current()]))
      ensures r == Output(old(chips[Current()]))
    {
      var i := Current();
      r := Output(chips[i]);
      chips := chips[i := Tick(Clock(chips[i], b))][1 - i := Passed(1 - i, chips[1 - i])];
    }

    method SendByte(b: byte)
      requires ChipSelected()
      requires !Clashes(chips[Current()].command, chips[Current()].activity)
      modifies this
      ensures select == old(select)
      ensures View(Current()) == Clock(old(View(Current())), b)
      ensures Calmer(old(chips[Current()].activity), chips[Current()].activity)
      ensures Undisturbed(1 - Current())
    {
      ghost var i := Current();
      ClockSettles(chips[i], b);
      TickKeepsSettled(Clock(chips[i], b));
      TickKeepsSettled(chips[1 - i]);
      var _ := TransferByte(b);
    }

    method ReceiveByte() returns (r: byte)
      requires ChipSelected()
      requires !Clashes(chips[Current()].command, chips[Current()].activity)
      modifies this
      ensures select == old(select)
      ensures r == Output(old(chips[Current()]))
      ensures View(Current()) == Clock(old(View(Current())), 0)
      ensures Calmer(old(chips[Current()].activity), chips[Current()].activity)
      ensures TimeLeft(old(chips[Current()].activity)) > 0 ==>
                TimeLeft(chips[Current()].activity) < TimeLeft(old(chips[Current()].activity))
      ensures Undisturbed(1 - Current())
    {
      ghost var i := Current();
      ClockSettles(chips[i], 0);
      TickKeepsSettled(Clock(chips[i], 0));
      TickKeepsSettled(chips[1 - i]);
      r := TransferByte(0);
    }

    /** Writes the chip select bits; a chip whose line goes high ends its command. */
    method SelectChip(mask: byte)
      requires mask != select ==> MayRelease()
      modifies this
      ensures select == mask
      ensures forall i | 0 <= i < TOTALCHIPS ::
        if old(Selected(i)) && mask != old(select) then
          && View(i) == Carried(old(View(i)))
          && chips[i].command == NoCommand
          && (if Starts(old(chips[i].command)) then Runs(Started(old(chips[i].command), 0), chips[i].activity)
              else chips[i].activity == old(chips[i].activity))
        else chips[i] == old(chips[i])
    {
      if mask != select && ChipSelected() {
        var i := Current();
        var duration: nat := *;
        ReleaseSettles(chips[i], duration);
        chips := chips[i := Release(chips[i], duration)];
      }
      select := mask;
    }

    method DeselectChip()
      requires MayRelease()
      modifies this
      ensures select == NO_CHIP
      ensures forall i | 0 <= i < TOTALCHIPS ::
        if old(Selected(i)) then
          && View(i) == Carried(old(View(i)))
          && chips[i].command == NoCommand
          && (if Starts(old(chips[i].command)) then Runs(Started(old(chips[i].command), 0), chips[i].activity)
              else chips[i].activity == old(chips[i].activity))
        else chips[i] == old(chips[i])
    {
      SelectChip(NO_CHIP);
    }

    method ToggleSelectedChipCS()
      requires ChipSelected() && MayRelease()
      modifies this
      ensures select == old(select)
      ensures View(Current()) == Carried(old(View(Current())))
      ensures chips[Current()].command == NoCommand
      ensures !Starts(old(chips[Current()].command)) ==> chips[Current()].activity == old(chips[Current()].activity)
      ensures chips[1 - Current()] == old(chips[1 - Current()])
    {
      var mask := select;
      assert Selected(Current());
      DeselectChip();
      SelectChip(mask);
    }

    /** One status byte: the chip is either ready or closer to being so. */
    method ReadStatus() returns (status: byte)
      requires ChipSelected() && chips[Current()].command == Opcode(CMD_GETSTATUS)
      modifies this
      ensures select == old(select)
      ensures View(Current()) == old(View(Current()))
      ensures chips[Current()].command == Opcode(CMD_GETSTATUS)
      ensures status / STATUS_READY % 2 == 1 ==> chips[Current()].activity.Idle?
      ensures status / STATUS_READY % 2 == 0 ==>
                TimeLeft(chips[Current()].activity) < TimeLeft(old(chips[Current()].activity))
      ensures Undisturbed(1 - Current())
    {
      status := ReceiveByte();
    }

    /** Spins until the status register reports that the chip is ready. */
    method PollUntilReady()
      requires ChipSelected() && chips[Current()].command == Opcode(CMD_GETSTATUS)
      modifies this
      ensures select == old(select)
      ensures View(Current()) == old(View(Current()))
      ensures chips[Current()].activity.Idle?
      ensures Undisturbed(1 - Current())
    {
      hide Settled;
      ghost var i := Current();
      var status := ReadStatus();
      while status / STATUS_READY % 2 == 0
        invariant select == old(select) && Current() == i
        invariant status / STATUS_READY % 2 == 1 ==> chips[i].activity.Idle?
        invariant View(i) == old(View(i))
        invariant chips[i].command == Opcode(CMD_GETSTATUS)
        invariant Undisturbed(1 - i)
        decreases TimeLeft(chips[i].activity), status / STATUS_READY % 2 == 0
      {
        status := ReadStatus();
      }
    }

    /** Asks the selected chip for its status. */
    method SendStatusCommand()
      requires ChipSelected() && chips[Current()].command == NoCommand
      modifies this
      ensures select == old(select)
      ensures View(Current()) == old(View(Current())).(command := Opcode(CMD_GETSTATUS))
      ensures chips[Current()].command == Opcode(CMD_GETSTATUS)
      ensures Undisturbed(1 - Current())
    {
      SendByte(CMD_GETSTATUS);
    }

    method WaitWhileBusy()
      requires ChipSelected() && MayRelease()
      modifies this
      ensures select == old(select)
      ensures View(Current()) == Carried(old(View(Current())))
      ensures chips[Current()].activity.Idle?
      ensures chips[Current()].command == NoCommand
      ensures Undisturbed(1 - Current())
    {
      hide Settled, Carried;
      ghost var i := Current();
      ToggleSelectedChipCS();
      assert Current() == i;
      SettledIs(chips[i]);
      SendStatusCommand();
      assert Current() == i;
      PollUntilReady();
      assert Current() == i;
      SettledIs(chips[i]);
      CarriedPlain(View(i));
      ToggleSelectedChipCS();
      assert Current() == i;
    }

    /** Selects the chip that holds the given page, or none when there is no such page. */
    method SelectChipFromPage(page: word)
      requires MayRelease()
      modifies this
      ensures select == MaskOfPage(page)
      ensures forall i | 0 <= i < TOTALCHIPS ::
        if old(Selected(i)) then
          && View(i) == Carried(old(View(i)))
          && chips[i].command == NoCommand
          && (if Starts(old(chips[i].command)) then Runs(Started(old(chips[i].command), 0), chips[i].activity)
              else chips[i].activity == old(chips[i].activity))
        else chips[i] == old(chips[i])
    {
      DeselectChip();
      if page >= MEDIA_PAGES {
        return;
      }
      if page % 2 == 1 {
        SelectChip(CHIP2);
      } else {
        SelectChip(CHIP1);
      }
    }

    /** The next byte of a command whose address is not complete. */
    method SendCommandByte(b: byte)
      requires ChipSelected()
      requires var command := chips[Current()].command; command.Opcode? || command.Address1? || command.Address2?
      modifies this
      ensures select == old(select)
      ensures View(Current()) == old(View(Current())).(command := NextCommand(old(chips[Current()].command), b))
      ensures chips[Current()].command == NextCommand(old(chips[Current()].command), b)
      ensures Calmer(old(chips[Current()].activity), chips[Current()].activity)
      ensures Undisturbed(1 - Current())
    {
      SendByte(b);
    }

    /** Completes the opcode just sent with the address of a byte in a page. */
    method SendAddressBytes(page: word, offset: word)
      requires ChipSelected() && page < MEDIA_PAGES && offset < 2048
      requires chips[Current()].command.Opcode? && chips[Current()].command.op != CMD_GETSTATUS
      modifies this
      ensures select == old(select)
      ensures var op := old(chips[Current()].command.op);
              View(Current()) == old(View(Current())).(command :=
                if op == CMD_MAINMEMPAGEREAD then ReadDelay(page / 2, offset, 4) else Addressed(op, page / 2, offset))
      ensures Calmer(old(chips[Current()].activity), chips[Current()].activity)
      ensures Undisturbed(1 - Current())
    {
      hide Settled;
      AddressRoundTrip(page, offset);
      var local := page / 2;
      SendCommandByte(local / 32 % 256);
      SendCommandByte(Or(local * 8 % 0x1_0000, offset / 256) % 256);
      SendCommandByte(offset % 256);
    }
  }
}
