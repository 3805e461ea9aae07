/** Reading OS blocks back from the dataflash media, to the host or into RAM. */
module DataflashReader {
  import opened Bytes
  import opened DataflashChip
  import opened DataflashBus
  import opened DataflashCommands
  import opened DataflashManager

  /** The data IN endpoint: the bytes handed to the host so far. */
  class InEndpoint {
    var sent: seq<byte>
    /** How often the host has failed to fetch a packet or has reset the interface. */
    ghost var failures: nat

    constructor ()
      ensures sent == [] && failures == 0
    {
      sent, failures := [], 0;
    }

    method WaitUntilReady() returns (failed: bool)
      modifies this`failures
      ensures failures == old(failures) + if failed then 1 else 0
    {
      failed := *;
      if failed {
        failures := failures + 1;
      }
    }

    method IsReadWriteAllowed() returns (allowed: bool) {
      allowed := *;
    }

    method ClearIN() {
    }

    method IsMassStoreReset() returns (reset: bool)
      modifies this`failures
      ensures failures == old(failures) + if reset then 1 else 0
    {
      reset := *;
      if reset {
        failures := failures + 1;
      }
    }

    /** Makes sure that there is room to write: sends the packet to the host if it is full. */
    method AwaitRoom() returns (failed: bool)
      modifies this`failures
      ensures failures == old(failures) + if failed then 1 else 0
    {
      failed := false;
      var allowed := IsReadWriteAllowed();
      if !allowed {
        ClearIN();
        failed := WaitUntilReady();
      }
    }

    /** Sends a packet that is full. */
    method Finish() {
      var allowed := IsReadWriteAllowed();
      if !allowed {
        ClearIN();
      }
    }

    method WriteByte(b: byte)
      modifies this`sent
      ensures sent == old(sent) + [b]
    {
      sent := sent + [b];
    }
  }

  /** The media of two idle chips. */
  ghost function MediaOf(c0: Chip, c1: Chip): (s: seq<byte>)
    ensures |s| == MEDIA_BYTES
  {
    Flat(Pages(c0.memory, c1.memory))
  }

  /** The board while a read is under way: byte `offset` of `page` is next, and both chips are
      idle and as they were at the start, but for the command in progress. */
  ghost predicate ReadingState(df: Dataflash, c0: Chip, c1: Chip, page: nat, offset: nat)
    reads df
  {
    && page < MEDIA_PAGES && offset <= PAGE_SIZE
    && df.select == MaskOf(page % 2) && df.LinesQuiet()
    && df.chips[page % 2].command == Reading(page / 2, offset % PAGE_SIZE)
    && df.chips[0].(command := NoCommand) == c0
    && df.chips[1].(command := NoCommand) == c1
    && c0.activity.Idle? && c1.activity.Idle?
  }

  lemma MediaAt(even: Memory, odd: Memory, page: nat, offset: nat)
    requires page < MEDIA_PAGES && offset < PAGE_SIZE
    ensures Flat(Pages(even, odd))[page * PAGE_SIZE + offset] == PageOf(even, odd, page)[offset]
  {
    assert (page * PAGE_SIZE + offset) / PAGE_SIZE == page;
  }

  /** Sends the page read command, its address and the four bytes the chip needs to start. */
  method StartRead(df: Dataflash, page: word, offset: word)
    requires Listening(df) && page < MEDIA_PAGES && offset < PAGE_SIZE && AllIdle(df)
    modifies df
    ensures df.select == old(df.select)
    ensures df.chips[df.Current()] == old(df.chips[df.Current()]).(command := Reading(page / 2, offset))
    ensures df.chips[1 - df.Current()] == old(df.chips[1 - df.Current()])
  {
    SendCommand(df, CMD_MAINMEMPAGEREAD, page, offset);
    SendDelayByte(df);
    SendDelayByte(df);
    SendDelayByte(df);
    SendDelayByte(df);
  }

  /** One of the bytes the chip needs before it can read a page. */
  method SendDelayByte(df: Dataflash)
    requires df.ChipSelected() && df.chips[df.Current()].command.ReadDelay? && AllIdle(df)
    modifies df
    ensures df.select == old(df.select)
    ensures df.chips[df.Current()] ==
      old(df.chips[df.Current()]).(command := NextCommand(old(df.chips[df.Current()].command), 0))
    ensures df.chips[1 - df.Current()] == old(df.chips[1 - df.Current()])
  {
    df.SendByte(0);
  }

  /** Receives the next byte of the page being read. */
  method NextByte(df: Dataflash, ghost page: nat, ghost offset: nat) returns (b: byte)
    requires page < MEDIA_PAGES && offset < PAGE_SIZE && AllIdle(df)
    requires df.select == MaskOf(page % 2) && df.chips[page % 2].command == Reading(page / 2, offset)
    modifies df
    ensures df.select == old(df.select)
    ensures b == old(df.chips[page % 2]).memory[page / 2][offset]
    ensures df.chips[page % 2] == old(df.chips[page % 2]).(command := Reading(page / 2, (offset + 1) % PAGE_SIZE))
    ensures df.chips[1 - page % 2] == old(df.chips[1 - page % 2])
  {
    assert df.Current() == page % 2;
    b := df.ReceiveByte();
    assert df.Current() == page % 2;
  }

  /** The end of a page: selects the next page's chip and starts reading it. */
  method ReadNextPage(df: Dataflash, page: word)
    requires page < MEDIA_PAGES && AllIdle(df) && df.LinesQuiet()
    requires forall i | 0 <= i < TOTALCHIPS :: df.Selected(i) ==> !Starts(df.chips[i].command)
    modifies df
    ensures df.select == MaskOf(page % 2) && df.LinesQuiet() && AllIdle(df)
    ensures df.chips[page % 2] == old(df.chips[page % 2]).(command := Reading(page / 2, 0))
    ensures df.chips[1 - page % 2] == old(df.chips[1 - page % 2]).(command := NoCommand)
  {
    CarriedPlain(df.View(0));
    CarriedPlain(df.View(1));
    df.SelectChipFromPage(page);
    assert df.Current() == page % 2;
    StartRead(df, page, 0);
    assert df.Current() == page % 2;
  }

  /** One byte of the read in progress. */
  method ReadByteAt(df: Dataflash, ghost c0: Chip, ghost c1: Chip, ghost page: nat, ghost offset: nat) returns (b: byte)
    requires ReadingState(df, c0, c1, page, offset) && offset < PAGE_SIZE
    modifies df
    ensures ReadingState(df, c0, c1, page, offset + 1)
    ensures b == MediaOf(c0, c1)[page * PAGE_SIZE + offset]
  {
    MediaAt(c0.memory, c1.memory, page, offset);
    b := NextByte(df, page, offset);
  }

  /** Moves one 16-byte chunk from the media to the endpoint. */
  method ReadChunk(df: Dataflash, ep: InEndpoint, ghost c0: Chip, ghost c1: Chip, ghost page: nat, ghost offset: nat)
    requires ReadingState(df, c0, c1, page, offset) && offset + CHUNK <= PAGE_SIZE
    modifies df, ep`sent
    ensures ReadingState(df, c0, c1, page, offset + CHUNK)
    ensures ep.sent == old(ep.sent) + MediaOf(c0, c1)[page * PAGE_SIZE + offset..][..CHUNK]
  {
    hide Settled, MediaOf;
    ghost var rest := MediaOf(c0, c1)[page * PAGE_SIZE + offset..];
    var i := 0;
    while i < CHUNK
      invariant 0 <= i <= CHUNK
      invariant ReadingState(df, c0, c1, page, offset + i)
      invariant ep.sent == old(ep.sent) + rest[..i]
    {
      var b := ReadByteAt(df, c0, c1, page, offset + i);
      assert ep.sent + [b] == old(ep.sent) + rest[..i + 1] by {
        assert b == rest[i] && rest[..i + 1] == rest[..i] + [b];
      }
      ep.WriteByte(b);
      i := i + 1;
    }
  }

  /** Moves on to the next page when this one has been read to its end. */
  method TurnReadPage(df: Dataflash, page: word, pageByteDiv16: nat, ghost c0: Chip, ghost c1: Chip)
    returns (page': word, pageByteDiv16': nat)
    requires ReadingState(df, c0, c1, page, pageByteDiv16 * 16)
    requires page * PAGE_SIZE + pageByteDiv16 * 16 < MEDIA_BYTES
    modifies df
    ensures ReadingState(df, c0, c1, page', pageByteDiv16' * 16) && pageByteDiv16' < PAGE_SIZE / 16
    ensures page' * PAGE_SIZE + pageByteDiv16' * 16 == page * PAGE_SIZE + pageByteDiv16 * 16
  {
    page', pageByteDiv16' := page, pageByteDiv16;
    if pageByteDiv16 == PAGE_SIZE / 16 {
      pageByteDiv16' := 0;
      page' := page + 1;
      ReadNextPage(df, page');
    }
  }

  /** The endpoint was given the media from byte `start` up to byte `to`. */
  ghost predicate Sent(ep: InEndpoint, before: seq<byte>, media: seq<byte>, start: nat, to: nat)
    reads ep
  {
    start <= to <= |media| && ep.sent == before + media[start..to]
  }

  lemma SlicesJoin(before: seq<byte>, media: seq<byte>, start: nat, middle: nat, to: nat)
    requires start <= middle <= to <= |media|
    ensures before + media[start..middle] + media[middle..][..to - middle] == before + media[start..to]
  {
  }

  /** The body of the inner loop. */
  method ReadNextChunk(df: Dataflash, ep: InEndpoint, page: word, pageByteDiv16: nat, ghost c0: Chip, ghost c1: Chip,
                       ghost before: seq<byte>, ghost start: nat)
    returns (page': word, pageByteDiv16': nat)
    requires ReadingState(df, c0, c1, page, pageByteDiv16 * 16)
    requires page * PAGE_SIZE + pageByteDiv16 * 16 + CHUNK <= MEDIA_BYTES
    requires Sent(ep, before, MediaOf(c0, c1), start, page * PAGE_SIZE + pageByteDiv16 * 16)
    modifies df, ep`sent
    ensures ReadingState(df, c0, c1, page', pageByteDiv16' * 16)
    ensures page' * PAGE_SIZE + pageByteDiv16' * 16 == page * PAGE_SIZE + pageByteDiv16 * 16 + CHUNK
    ensures Sent(ep, before, MediaOf(c0, c1), start, page' * PAGE_SIZE + pageByteDiv16' * 16)
  {
    ghost var at := page * PAGE_SIZE + pageByteDiv16 * 16;
    page', pageByteDiv16' := TurnReadPage(df, page, pageByteDiv16, c0, c1);
    ReadChunk(df, ep, c0, c1, page', pageByteDiv16' * 16);
    SlicesJoin(before, MediaOf(c0, c1), start, at, at + CHUNK);
    pageByteDiv16' := pageByteDiv16' + 1;
  }

  /** One block of 32 chunks, unless the host fails or resets the interface. */
  method ReadBlock(df: Dataflash, ep: InEndpoint, page: word, pageByteDiv16: nat, ghost c0: Chip, ghost c1: Chip,
                   ghost before: seq<byte>, ghost start: nat)
    returns (ok: bool, page': word, pageByteDiv16': nat)
    requires ReadingState(df, c0, c1, page, pageByteDiv16 * 16)
    requires page * PAGE_SIZE + pageByteDiv16 * 16 + VIRTUAL_MEMORY_BLOCK_SIZE <= MEDIA_BYTES
    requires Sent(ep, before, MediaOf(c0, c1), start, page * PAGE_SIZE + pageByteDiv16 * 16)
    modifies df, ep
    ensures ReadingState(df, c0, c1, page', pageByteDiv16' * 16)
    ensures page' * PAGE_SIZE + pageByteDiv16' * 16 <= page * PAGE_SIZE + pageByteDiv16 * 16 + VIRTUAL_MEMORY_BLOCK_SIZE
    ensures Sent(ep, before, MediaOf(c0, c1), start, page' * PAGE_SIZE + pageByteDiv16' * 16)
    ensures ok ==>
      page' * PAGE_SIZE + pageByteDiv16' * 16 == page * PAGE_SIZE + pageByteDiv16 * 16 + VIRTUAL_MEMORY_BLOCK_SIZE
    ensures ep.failures == old(ep.failures) + if ok then 0 else 1
  {
    hide Settled;
    ok, page', pageByteDiv16' := true, page, pageByteDiv16;
    var inBlockDiv16 := 0;
    while inBlockDiv16 < VIRTUAL_MEMORY_BLOCK_SIZE / 16
      invariant 0 <= inBlockDiv16 <= VIRTUAL_MEMORY_BLOCK_SIZE / 16
      invariant ReadingState(df, c0, c1, page', pageByteDiv16' * 16)
      invariant page' * PAGE_SIZE + pageByteDiv16' * 16 == page * PAGE_SIZE + pageByteDiv16 * 16 + inBlockDiv16 * 16
      invariant ok && ep.failures == old(ep.failures)
      invariant Sent(ep, before, MediaOf(c0, c1), start, page' * PAGE_SIZE + pageByteDiv16' * 16)
    {
      var failed := ep.AwaitRoom();
      if failed {
        ok := false;
        return;
      }
      page', pageByteDiv16' := ReadNextChunk(df, ep, page', pageByteDiv16', c0, c1, before, start);
      inBlockDiv16 := inBlockDiv16 + 1;
      var reset := ep.IsMassStoreReset();
      if reset {
        ok := false;
        return;
      }
    }
  }

  /** All blocks of a read, from the chunk that is next. */
  method SendBlocks(df: Dataflash, ep: InEndpoint, page: word, pageByteDiv16: nat, totalBlocks: word,
                    ghost c0: Chip, ghost c1: Chip)
    returns (ok: bool, ghost page': nat, ghost pageByteDiv16': nat)
    requires ReadingState(df, c0, c1, page, pageByteDiv16 * 16)
    requires page * PAGE_SIZE + pageByteDiv16 * 16 + totalBlocks * VIRTUAL_MEMORY_BLOCK_SIZE <= MEDIA_BYTES
    modifies df, ep
    ensures ReadingState(df, c0, c1, page', pageByteDiv16' * 16)
    ensures var start, to := page * PAGE_SIZE + pageByteDiv16 * 16, page' * PAGE_SIZE + pageByteDiv16' * 16;
      && to <= start + totalBlocks * VIRTUAL_MEMORY_BLOCK_SIZE
      && Sent(ep, old(ep.sent), MediaOf(c0, c1), start, to)
      && (ok ==> to == start + totalBlocks * VIRTUAL_MEMORY_BLOCK_SIZE)
    ensures ep.failures == old(ep.failures) + if ok then 0 else 1
  {
    ghost var start := page * PAGE_SIZE + pageByteDiv16 * 16;
    var current: word, div16: nat := page, pageByteDiv16;
    var blocks := totalBlocks;
    while blocks > 0
      invariant 0 <= blocks <= totalBlocks
      invariant ReadingState(df, c0, c1, current, div16 * 16)
      invariant current * PAGE_SIZE + div16 * 16 == start + (totalBlocks - blocks) * VIRTUAL_MEMORY_BLOCK_SIZE
      invariant Sent(ep, old(ep.sent), MediaOf(c0, c1), start, current * PAGE_SIZE + div16 * 16)
      invariant ep.failures == old(ep.failures)
    {
      ok, current, div16 := ReadBlock(df, ep, current, div16, c0, c1, old(ep.sent), start);
      if !ok {
        return false, current, div16;
      }
      blocks := blocks - 1;
    }
    return true, current, div16;
  }

  /** The start of a read: the first page's chip is selected and told where to begin. */
  method OpenRead(df: Dataflash, page: word, pageByte: word)
    requires Ready(df) && page < MEDIA_PAGES && pageByte < PAGE_SIZE
    modifies df
    ensures ReadingState(df, old(df.chips[0]).(command := NoCommand), old(df.chips[1]).(command := NoCommand), page, pageByte)
  {
    CarriedPlain(df.View(0));
    CarriedPlain(df.View(1));
    df.SelectChipFromPage(page);
    assert df.Current() == page % 2;
    StartRead(df, page, pageByte);
    assert df.Current() == page % 2;
  }

  lemma StillReady(df: Dataflash, c0: Chip, c1: Chip, page: nat, offset: nat)
    requires ReadingState(df, c0, c1, page, offset) && !c0.violated && !c1.violated
    ensures Ready(df)
  {
  }

  /** Deselects the chips at the end of a read. */
  method LetGo(df: Dataflash, ghost c0: Chip, ghost c1: Chip, ghost page: nat, ghost offset: nat)
    requires ReadingState(df, c0, c1, page, offset) && !c0.violated && !c1.violated
    modifies df
    ensures Ready(df) && df.select == NO_CHIP
    ensures df.chips[0].(command := NoCommand) == c0 && df.chips[1].(command := NoCommand) == c1
  {
    CarriedPlain(df.View(0));
    CarriedPlain(df.View(1));
    df.DeselectChip();
  }

  method FinishRead(df: Dataflash, ep: InEndpoint, ghost c0: Chip, ghost c1: Chip, ghost page: nat, ghost offset: nat)
    requires ReadingState(df, c0, c1, page, offset) && !c0.violated && !c1.violated
    modifies df
    ensures Ready(df) && df.select == NO_CHIP
    ensures df.chips[0].(command := NoCommand) == c0 && df.chips[1].(command := NoCommand) == c1
  {
    ep.Finish();
    LetGo(df, c0, c1, page, offset);
  }

  /** Sends OS blocks from the media to the endpoint; the media is left alone. A read is cut short
      only by the host, and then it has sent a prefix of what was asked for. */
  method ReadBlocks(df: Dataflash, ep: InEndpoint, blockAddress: nat, totalBlocks: word)
    returns (completed: bool, ghost to: nat)
    requires Ready(df)
    requires blockAddress < MEDIA_BLOCKS && blockAddress + totalBlocks <= MEDIA_BLOCKS
    modifies df, ep
    ensures Ready(df)
    ensures df.chips[0].(command := NoCommand) == old(df.chips[0]).(command := NoCommand)
    ensures df.chips[1].(command := NoCommand) == old(df.chips[1]).(command := NoCommand)
    ensures var start, end := blockAddress * VIRTUAL_MEMORY_BLOCK_SIZE, (blockAddress + totalBlocks) * VIRTUAL_MEMORY_BLOCK_SIZE;
      && start <= to <= end
      && ep.sent == old(ep.sent) + old(Media(df))[start..to]
      && (completed ==> to == end && df.select == NO_CHIP)
    ensures ep.failures == old(ep.failures) + if completed then 0 else 1
  {
    ghost var c0, c1 := df.chips[0].(command := NoCommand), df.chips[1].(command := NoCommand);
    assert MediaOf(c0, c1) == Media(df);
    BlockPlace(blockAddress);
    var page := blockAddress * VIRTUAL_MEMORY_BLOCK_SIZE / PAGE_SIZE;
    var pageByte := blockAddress * VIRTUAL_MEMORY_BLOCK_SIZE % PAGE_SIZE;
    ghost var start := blockAddress * VIRTUAL_MEMORY_BLOCK_SIZE;
    OpenRead(df, page, pageByte);
    completed, to := false, start;
    StillReady(df, c0, c1, page, pageByte);
    assert ep.sent == old(ep.sent) + MediaOf(c0, c1)[start..to];
    var failed := ep.WaitUntilReady();
    if !failed {
      var ok, last, div16 := SendBlocks(df, ep, page, pageByte / 16, totalBlocks, c0, c1);
      to := last * PAGE_SIZE + div16 * 16;
      StillReady(df, c0, c1, last, div16 * 16);
      if ok {
        FinishRead(df, ep, c0, c1, last, div16 * 16);
        completed := true;
      }
    }
  }

  /** What was written is read back unless the host fails or resets the interface: at once, if the
      write was inside one page; otherwise after a pause in which the chips can finish. */
  method WriteThenRead(df: Dataflash, out: OutEndpoint, into: InEndpoint, blockAddress: nat, totalBlocks: word, pause: bool)
    returns (written: bool, read: bool)
    requires Ready(df)
    requires blockAddress < MEDIA_BLOCKS && blockAddress + totalBlocks <= MEDIA_BLOCKS
    requires pause || blockAddress * VIRTUAL_MEMORY_BLOCK_SIZE % PAGE_SIZE + totalBlocks * VIRTUAL_MEMORY_BLOCK_SIZE <= PAGE_SIZE
    modifies df, out, into
    ensures out.failures == old(out.failures) && into.failures == old(into.failures) ==> written && read
    ensures written && read ==>
      into.sent == old(into.sent) + Received(out.stream, old(out.taken), totalBlocks * VIRTUAL_MEMORY_BLOCK_SIZE)
  {
    ghost var start, count := blockAddress * VIRTUAL_MEMORY_BLOCK_SIZE, totalBlocks * VIRTUAL_MEMORY_BLOCK_SIZE;
    ghost var data := Received(out.stream, out.taken, count);
    ghost var media := Media(df);
    ghost var job := WriteJob(df, out, blockAddress, totalBlocks);
    read := false;
    ghost var stopPage;
    written, stopPage := WriteBlocks(df, out, blockAddress, totalBlocks);
    if written {
      if pause {
        Elapse(df);
      } else {
        assert start == job.First() * PAGE_SIZE + start % PAGE_SIZE;
        OnePageLeavesReady(df, job);
      }
      SpliceSlice(media, start, data);
      ghost var to;
      read, to := ReadBlocks(df, into, blockAddress, totalBlocks);
    }
  }

  lemma SpliceSlice(media: seq<byte>, start: nat, data: seq<byte>)
    requires start + |data| <= |media|
    ensures (media[..start] + data + media[start + |data|..])[start..start + |data|] == data
  {
  }
}
