/** The dataflash command sequences the storage manager is made of, each described by its
    effect on the settled view of the selected chip. */
module DataflashCommands {
  import opened Bytes
  import opened DataflashChip
  import opened DataflashBus

  function FillOp(second: bool): byte {
    if second then CMD_BUFF2WRITE else CMD_BUFF1WRITE
  }

  function PreloadOp(second: bool): byte {
    if second then CMD_MAINMEMTOBUFF2 else CMD_MAINMEMTOBUFF1
  }

  function CommitOp(second: bool): byte {
    if second then CMD_BUFF2TOMAINMEMWITHERASE else CMD_BUFF1TOMAINMEMWITHERASE
  }

  function Which(second: bool): Buffer {
    if second then Buffer2 else Buffer1
  }

  /** The selected chip is idle and listens for an opcode. */
  predicate Listening(df: Dataflash)
    reads df
  {
    && df.ChipSelected()
    && df.chips[df.Current()].command == NoCommand
  }

  /** The selected chip takes the next bytes into buffer `second` from `offset` on. */
  predicate FillingAt(df: Dataflash, second: bool, offset: nat)
    reads df
  {
    && df.ChipSelected()
    && var command := df.chips[df.Current()].command;
       command.Addressed? && command.op == FillOp(second) && command.offset == offset
  }

  /** An opcode and its address. */
  method SendCommand(df: Dataflash, op: byte, page: word, offset: word)
    requires Listening(df) && page < MEDIA_PAGES && offset < 2048
    requires op != CMD_GETSTATUS
    modifies df
    ensures df.select == old(df.select)
    ensures df.View(df.Current()) == old(df.View(df.Current())).(command :=
              if op == CMD_MAINMEMPAGEREAD then ReadDelay(page / 2, offset, 4) else Addressed(op, page / 2, offset))
    ensures Calmer(old(df.chips[df.Current()].activity), df.chips[df.Current()].activity)
    ensures df.Undisturbed(1 - df.Current())
  {
    df.SendByte(op);
    df.SendAddressBytes(page, offset);
  }

  /** Copies a page of the selected chip into one of its buffers and waits for it. */
  method Preload(df: Dataflash, second: bool, page: word)
    requires Listening(df) && page < MEDIA_PAGES
    requires df.chips[df.Current()].activity.Idle?
    modifies df
    ensures df.select == old(df.select)
    ensures var v := old(df.View(df.Current()));
            df.View(df.Current()) == v.WithBuf(Which(second), v.memory[page / 2])
    ensures df.chips[df.Current()].activity.Idle?
    ensures Listening(df)
    ensures df.Undisturbed(1 - df.Current())
  {
    SendCommand(df, PreloadOp(second), page, 0);
    df.WaitWhileBusy();
  }

  method StartFill(df: Dataflash, second: bool, offset: word)
    requires Listening(df) && offset < PAGE_SIZE
    modifies df
    ensures df.select == old(df.select)
    ensures FillingAt(df, second, offset)
    ensures df.View(df.Current()) == old(df.View(df.Current())).(command := df.chips[df.Current()].command)
    ensures Calmer(old(df.chips[df.Current()].activity), df.chips[df.Current()].activity)
    ensures df.Undisturbed(1 - df.Current())
  {
    SendCommand(df, FillOp(second), 0, offset);
  }

  /** Waits for the selected chip and asks it to program a page from a buffer; the chip will
      start when it is deselected. */
  method StartCommit(df: Dataflash, second: bool, page: word)
    requires df.ChipSelected() && page < MEDIA_PAGES
    requires !Starts(df.chips[df.Current()].command)
    modifies df
    ensures df.select == old(df.select)
    ensures df.chips[df.Current()].command == Addressed(CommitOp(second), page / 2, 0)
    ensures df.chips[df.Current()].activity.Idle?
    ensures df.View(df.Current()) == old(df.View(df.Current())).(command := df.chips[df.Current()].command)
    ensures df.Undisturbed(1 - df.Current())
  {
    CarriedPlain(df.View(df.Current()));
    df.WaitWhileBusy();
    SendCommand(df, CommitOp(second), page, 0);
  }

  /** Deselecting a chip that was told to program a page. */
  lemma CarriedCommit(c: Chip, second: bool, page: PageIndex)
    requires c.activity.Idle? && c.command == Addressed(CommitOp(second), page, 0)
    ensures Carried(c) == c.(memory := c.memory[page := c.Buf(Which(second))], command := NoCommand)
    ensures Starts(c.command) && Started(c.command, 0) == Programming(Which(second), page, 0)
  {
  }

  /** Programs a page of the selected chip from a buffer and waits for it. */
  method Commit(df: Dataflash, second: bool, page: word)
    requires page < MEDIA_PAGES && df.select == MaskOf(page % 2)
    requires !Starts(df.chips[page % 2].command)
    modifies df
    ensures df.select == old(df.select)
    ensures var v := old(df.View(page % 2));
            df.View(page % 2) == v.(memory := v.memory[page / 2 := v.Buf(Which(second))], command := NoCommand)
    ensures df.chips[page % 2].activity.Idle? && df.chips[page % 2].command == NoCommand
    ensures df.Undisturbed(1 - page % 2)
  {
    hide Settled, Carried;
    ghost var c := page % 2;
    assert df.Current() == c;
    StartCommit(df, second, page);
    assert df.Current() == c && df.Undisturbed(1 - c);
    SettledIs(df.chips[c]);
    CarriedCommit(df.View(c), second, page / 2);
    label Told:
    df.WaitWhileBusy();
    assert df.Current() == c && df.Undisturbed@Told(1 - c);
  }

  /** The end of a page: programs it from its buffer, switches buffers when the last chip has
      had its turn, and selects the chip of the next page. */
  method CommitAndAdvance(df: Dataflash, second: bool, page: word) returns (second': bool)
    requires page + 1 < MEDIA_PAGES && df.select == MaskOf(page % 2) && df.LinesQuiet()
    requires !Starts(df.chips[page % 2].command)
    modifies df
    ensures second' == (second != (page % 2 == 1))
    ensures df.select == MaskOf((page + 1) % 2) && df.LinesQuiet() && Listening(df)
    ensures var v := old(df.View(page % 2));
            df.View(page % 2) == v.(memory := v.memory[page / 2 := v.Buf(Which(second))], command := NoCommand)
    ensures Runs(Programming(Which(second), page / 2, 0), df.chips[page % 2].activity)
    ensures df.Undisturbed(1 - page % 2)
  {
    StartCommit(df, second, page);
    second' := second;
    if df.select == CHIP2 {
      second' := !second;
    }
    CarriedCommit(df.View(page % 2), second, page / 2);
    df.SelectChipFromPage(page + 1);
  }

  /** Starts filling a buffer of the selected chip, over a page's old contents if asked to. */
  method OpenBuffer(df: Dataflash, second: bool, page: word, preload: bool)
    requires Listening(df) && page < MEDIA_PAGES
    modifies df
    ensures df.select == old(df.select)
    ensures FillingAt(df, second, 0)
    ensures var v := old(df.View(df.Current()));
            df.View(df.Current()) == (if preload then v.WithBuf(Which(second), v.memory[page / 2]) else v)
                                     .(command := df.chips[df.Current()].command)
    ensures preload ==> df.chips[df.Current()].activity.Idle?
    ensures Calmer(old(df.chips[df.Current()].activity), df.chips[df.Current()].activity)
    ensures df.Undisturbed(1 - df.Current())
  {
    if preload {
      CarriedPlain(df.View(df.Current()));
      df.WaitWhileBusy();
      Preload(df, second, page);
    }
    StartFill(df, second, 0);
  }

  /** A buffer free of background use takes one byte. */
  method FillByte(df: Dataflash, ghost second: bool, ghost offset: nat, b: byte)
    requires FillingAt(df, second, offset) && offset < PAGE_SIZE
    requires !Uses(df.chips[df.Current()].activity, Which(second))
    modifies df
    ensures df.select == old(df.select)
    ensures FillingAt(df, second, (offset + 1) % PAGE_SIZE)
    ensures df.View(df.Current()).Buf(Which(second)) == old(df.View(df.Current())).Buf(Which(second))[offset := b]
    ensures df.View(df.Current()).OnlyBufDiffers(Which(second), old(df.View(df.Current())))
    ensures Calmer(old(df.chips[df.Current()].activity), df.chips[df.Current()].activity)
    ensures !Uses(df.chips[df.Current()].activity, Which(second))
    ensures df.Undisturbed(1 - df.Current())
  {
    df.SendByte(b);
  }
}
