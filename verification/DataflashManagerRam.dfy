/** The dataflash transfers from and to a RAM buffer. The write always fills buffer 1 of a new
    page's chip but programs the page from the buffer that the alternation selects. */
module DataflashManagerRam {
  import opened Bytes
  import opened DataflashChip
  import opened DataflashBus
  import opened DataflashCommands
  import opened DataflashManager
  import opened DataflashReader

  /** The first page that is programmed from buffer 2. */
  function SwitchPage(job: Job): nat {
    job.First() / 2 * 2 + 2
  }

  /** What ends up in the switch page: its old contents or what chip 1's second buffer held
      before the write, but nothing of the data. */
  ghost function Stale(job: Job, buffer2: Page): Page
    requires |job.before| == MEDIA_PAGES && SwitchPage(job) * PAGE_SIZE < job.End() <= MEDIA_BYTES
  {
    var p := SwitchPage(job);
    if PreloadsTail((job.End() - p * PAGE_SIZE) / VIRTUAL_MEMORY_BLOCK_SIZE) then job.before[p] else buffer2
  }

  /** A chip that is programming this page from buffer 1. */
  predicate ProgramsFromFirst(a: Activity, page: nat) {
    a.Programming? && a.source == Buffer1 && a.page == page
  }

  /** A view of one of the two chips, and what it is busy with. */
  datatype Snapshot = Snapshot(view: Chip, activity: Activity)

  ghost function Snap(df: Dataflash, i: nat): Snapshot
    requires i < TOTALCHIPS
    reads df
  {
    Snapshot(df.View(i), df.chips[i].activity)
  }

  /** The same chip later, undisturbed. */
  ghost predicate Later(before: Snapshot, after: Snapshot) {
    after.view == before.view && Calmer(before.activity, after.activity)
  }

  /** What a chip busy with `a` has in memory after bytes went to its buffer 1: only the page that it
      is programming from there may differ. */
  ghost predicate MemoryKept(a: Activity, before: Memory, after: Memory) {
    forall q: PageIndex :: !ProgramsFromFirst(a, q) ==> after[q] == before[q]
  }

  lemma KeptAtFirst(a: Activity, m: Memory)
    ensures MemoryKept(a, m, m)
  {
  }

  lemma KeptOn(a: Activity, m: Memory, a': Activity, m': Memory, m'': Memory)
    requires MemoryKept(a, m, m') && Calmer(a, a') && MemoryKept(a', m', m'')
    ensures MemoryKept(a, m, m'')
  {
  }

  /** On chip `i` only pages from the first one of the write up to `page` have changed or will. */
  ghost predicate ConfinedOn(s: Snapshot, i: nat, job: Job, page: nat)
    requires |job.before| == MEDIA_PAGES && i < TOTALCHIPS
  {
    && (forall q: PageIndex :: !(job.First() <= 2 * q + i < page) ==> s.view.memory[q] == job.before[2 * q + i])
    && (s.activity.Programming? ==> job.First() <= 2 * s.activity.page + i < page)
  }

  ghost predicate Confined(df: Dataflash, job: Job, page: nat)
    requires |job.before| == MEDIA_PAGES
    reads df
  {
    ConfinedOn(Snap(df, 0), 0, job, page) && ConfinedOn(Snap(df, 1), 1, job, page)
  }

  /** At the beginning nothing has changed. */
  lemma ConfinedAtFirst(even: Snapshot, odd: Snapshot, job: Job)
    requires |job.before| == MEDIA_PAGES && job.before == Pages(even.view.memory, odd.view.memory)
    requires even.activity.Idle? && odd.activity.Idle?
    ensures ConfinedOn(even, 0, job, job.First()) && ConfinedOn(odd, 1, job, job.First())
  {
    forall q: PageIndex ensures even.view.memory[q] == job.before[2 * q] && odd.view.memory[q] == job.before[2 * q + 1] {
      assert job.before[2 * q] == Pages(even.view.memory, odd.view.memory)[2 * q];
      assert job.before[2 * q + 1] == Pages(even.view.memory, odd.view.memory)[2 * q + 1];
    }
  }

  /** Filling a buffer, or letting time pass, confined or not. */
  lemma ConfinedFill(s: Snapshot, s': Snapshot, i: nat, job: Job, page: nat)
    requires |job.before| == MEDIA_PAGES && i < TOTALCHIPS && ConfinedOn(s, i, job, page)
    requires MemoryKept(s.activity, s.view.memory, s'.view.memory) && Calmer(s.activity, s'.activity)
    ensures ConfinedOn(s', i, job, page)
  {
  }

  /** Programming a page makes it one of those that may have changed. */
  lemma ConfinedCommit(s: Snapshot, s': Snapshot, i: nat, job: Job, page: nat, b: Buffer, contents: Page)
    requires |job.before| == MEDIA_PAGES && job.First() <= page < MEDIA_PAGES && i == page % 2
    requires ConfinedOn(s, i, job, page)
    requires s'.view.memory == s.view.memory[page / 2 := contents]
    requires Calmer(Programming(b, page / 2, 0), s'.activity)
    ensures ConfinedOn(s', i, job, page + 1)
  {
    forall q: PageIndex | !(job.First() <= 2 * q + i < page + 1)
      ensures s'.view.memory[q] == job.before[2 * q + i]
    {
      assert 2 * (page / 2) + i == page;
    }
  }

  /** In the end no page outside the range has changed. */
  lemma OutsideUntouched(df: Dataflash, job: Job, page: nat)
    requires |job.before| == MEDIA_PAGES && Confined(df, job, page)
    ensures OutsideKept(job, page, MediaPages(df))
  {
    forall q | 0 <= q < MEDIA_PAGES && !(job.First() <= q < page) ensures MediaPages(df)[q] == job.before[q] {
      assert q == 2 * (q / 2) + q % 2;
    }
  }

  ghost predicate OutsideKept(job: Job, page: nat, after: seq<Page>)
    requires |job.before| == |after|
  {
    forall q | 0 <= q < |after| && !(job.First() <= q < page) :: after[q] == job.before[q]
  }

  /** Before the switch everything is as in the endpoint write. */
  ghost predicate Straight(df: Dataflash, job: Job, page: nat, filled: nat, buffer2: Page)
    reads df
  {
    && Writing(df, job, page, filled)
    && page < SwitchPage(job)
    && df.View(0).buffer2 == buffer2
    && !ProgramsFromFirst(df.chips[0].activity, SwitchPage(job) / 2)
  }

  /** From the switch on, the switch page is bound to hold `stale`. */
  ghost predicate Stray(df: Dataflash, job: Job, page: nat, filled: nat, second: bool, stale: Page)
    reads df
  {
    var p := SwitchPage(job);
    && job.Valid()
    && p <= page < MEDIA_PAGES && filled <= PAGE_SIZE
    && df.select == MaskOf(page % 2) && df.LinesQuiet()
    && FillingAt(df, false, filled % PAGE_SIZE)
    && !ProgramsFromFirst(df.chips[0].activity, p / 2)
    && (page == p ==> second && df.View(0).buffer2 == stale)
    && (page > p ==> df.View(0).memory[p / 2] == stale)
  }

  /** A byte into buffer 1, even while the chip is still programming from it. */
  lemma StrayByte(c: Chip, b: byte)
    requires c.command.Addressed? && c.command.op == CMD_BUFF1WRITE && c.command.offset < PAGE_SIZE
    ensures Settled(Clock(c, b)).buffer2 == Settled(c).buffer2
    ensures MemoryKept(c.activity, Settled(c).memory, Settled(Clock(c, b)).memory)
    ensures !Uses(c.activity, Buffer1) ==>
      && Settled(Clock(c, b)).buffer1 == Settled(c).buffer1[c.command.offset := b]
      && Settled(Clock(c, b)).OnlyBufDiffers(Buffer1, Settled(c))
    ensures Clock(c, b).activity == c.activity
    ensures Clock(c, b).command == Addressed(CMD_BUFF1WRITE, c.command.page, (c.command.offset + 1) % PAGE_SIZE)
  {
    if !Uses(c.activity, Buffer1) {
      ClockSettles(c, b);
    }
  }

  /** Sends the next data byte to buffer 1 of the selected chip. */
  method StrayFillByte(df: Dataflash, b: byte, ghost offset: nat)
    requires FillingAt(df, false, offset) && offset < PAGE_SIZE
    modifies df
    ensures df.select == old(df.select)
    ensures FillingAt(df, false, (offset + 1) % PAGE_SIZE)
    ensures !Uses(old(df.chips[df.Current()].activity), Buffer1) ==>
      && df.View(df.Current()).buffer1 == old(df.View(df.Current())).buffer1[offset := b]
      && df.View(df.Current()).OnlyBufDiffers(Buffer1, old(df.View(df.Current())))
    ensures df.View(df.Current()).buffer2 == old(df.View(df.Current())).buffer2
    ensures MemoryKept(old(df.chips[df.Current()].activity), old(df.View(df.Current())).memory,
                       df.View(df.Current()).memory)
    ensures Calmer(old(df.chips[df.Current()].activity), df.chips[df.Current()].activity)
    ensures df.Undisturbed(1 - df.Current())
  {
    hide Settled, Clock, Tick, MemoryKept;
    ghost var i := df.Current();
    StrayByte(df.chips[i], b);
    TickKeepsSettled(Clock(df.chips[i], b));
    TickKeepsSettled(df.chips[1 - i]);
    var _ := df.TransferByte(b);
    assert df.Current() == i;
  }

  /** Copies one 16-byte chunk of RAM into buffer 1 of the selected chip. */
  method FillChunkRam(df: Dataflash, source: array<byte>, position: nat, ghost offset: nat)
    requires FillingAt(df, false, offset) && offset + CHUNK <= PAGE_SIZE && position + CHUNK <= source.Length
    modifies df
    ensures df.select == old(df.select)
    ensures FillingAt(df, false, (offset + CHUNK) % PAGE_SIZE)
    ensures !Uses(old(df.chips[df.Current()].activity), Buffer1) ==>
      && df.View(df.Current()).buffer1 ==
           Spliced(old(df.View(df.Current())).buffer1, offset, source[position..position + CHUNK])
      && df.View(df.Current()).OnlyBufDiffers(Buffer1, old(df.View(df.Current())))
    ensures df.View(df.Current()).buffer2 == old(df.View(df.Current())).buffer2
    ensures MemoryKept(old(df.chips[df.Current()].activity), old(df.View(df.Current())).memory,
                       df.View(df.Current()).memory)
    ensures Calmer(old(df.chips[df.Current()].activity), df.chips[df.Current()].activity)
    ensures df.Undisturbed(1 - df.Current())
  {
    hide Settled, MemoryKept, Spliced;
    ghost var c := df.Current();
    ghost var v, a := df.View(c), df.chips[c].activity;
    KeptAtFirst(a, v.memory);
    ghost var free := !Uses(df.chips[c].activity, Buffer1);
    ghost var bytes := [];
    SpliceNothing(v.buffer1, offset);
    var i := 0;
    while i < CHUNK
      invariant 0 <= i <= CHUNK
      invariant df.select == old(df.select) && df.Current() == c
      invariant FillingAt(df, false, (offset + i) % PAGE_SIZE)
      invariant bytes == source[position..position + i]
      invariant free ==> df.View(c).buffer1 == Spliced(v.buffer1, offset, bytes)
      invariant free ==> df.View(c).OnlyBufDiffers(Buffer1, v)
      invariant df.View(c).buffer2 == v.buffer2
      invariant MemoryKept(a, v.memory, df.View(c).memory)
      invariant Calmer(old(df.chips[c].activity), df.chips[c].activity)
      invariant df.Undisturbed(1 - c)
    {
      SpliceNext(v.buffer1, offset, bytes, source[position + i]);
      bytes := bytes + [source[position + i]];
      assert bytes == source[position..position + (i + 1)];
      ghost var was := Snap(df, c);
      StrayFillByte(df, source[position + i], offset + i);
      KeptOn(a, v.memory, was.activity, was.view.memory, df.View(c).memory);
      i := i + 1;
    }
  }

  /** Starts filling buffer 1 for a new page, after preloading the selected buffer if asked to. */
  method OpenBufferRam(df: Dataflash, second: bool, page: word, preload: bool)
    requires Listening(df) && page < MEDIA_PAGES
    modifies df
    ensures df.select == old(df.select)
    ensures FillingAt(df, false, 0)
    ensures var v := old(df.View(df.Current()));
            df.View(df.Current()) == (if preload then v.WithBuf(Which(second), v.memory[page / 2]) else v)
                                     .(command := df.chips[df.Current()].command)
    ensures preload ==> df.chips[df.Current()].activity.Idle?
    ensures Calmer(old(df.chips[df.Current()].activity), df.chips[df.Current()].activity)
    ensures df.Undisturbed(1 - df.Current())
  {
    ghost var c := df.Current();
    CarriedPlain(df.View(c));
    if preload {
      df.WaitWhileBusy();
      Preload(df, second, page);
    }
    assert df.Current() == c;
    CarriedPlain(df.View(c));
    df.ToggleSelectedChipCS();
    assert df.Current() == c;
    StartFill(df, false, 0);
  }

  lemma StraightUsesFirst(job: Job, page: nat)
    requires job.First() <= page < SwitchPage(job)
    ensures !job.Second(page)
    ensures page + 1 < SwitchPage(job) ==> page % 2 == 0
    ensures page + 1 == SwitchPage(job) ==> page % 2 == 1 && job.Second(page + 1)
  {
  }

  /** The state between two chunks, before or after the switch. */
  ghost predicate RamState(df: Dataflash, job: Job, page: nat, filled: nat, second: bool, buffer2: Page)
    reads df
  {
    && job.Valid() && page * PAGE_SIZE + filled <= job.End() && Confined(df, job, page)
    && if page < SwitchPage(job) then Straight(df, job, page, filled, buffer2) && !second
       else SwitchPage(job) * PAGE_SIZE < job.End() && Stray(df, job, page, filled, second, Stale(job, buffer2))
  }

  /** Between two pages, up to the switch page. */
  ghost predicate TurningStraight(df: Dataflash, job: Job, page: nat, buffer2: Page)
    reads df
  {
    && Advanced(df, job, page) && page <= SwitchPage(job)
    && df.View(0).buffer2 == buffer2
    && !ProgramsFromFirst(df.chips[0].activity, SwitchPage(job) / 2)
    && df.View(page % 2).memory[page / 2] == job.before[page]
  }

  /** Between two pages, past the switch page. */
  ghost predicate TurningStray(df: Dataflash, job: Job, page: nat, stale: Page)
    reads df
  {
    && job.Valid() && SwitchPage(job) < page < MEDIA_PAGES
    && df.select == MaskOf(page % 2) && df.LinesQuiet() && Listening(df)
    && !ProgramsFromFirst(df.chips[0].activity, SwitchPage(job) / 2)
    && df.View(0).memory[SwitchPage(job) / 2] == stale
  }

  /** What programming a straight page leaves behind: `c` is the page's chip, `d` the other. */
  lemma AdvancedStraight(df: Dataflash, page: nat, job: Job, buffer2: Page, c: Snapshot, d: Snapshot)
    requires job.Valid() && job.First() <= page < SwitchPage(job) && (page + 1) * PAGE_SIZE < job.End()
    requires Filled(c.view.buffer1, job, page, PAGE_SIZE)
    requires page % 2 == 0 ==> Committed(c.view.memory, d.view.memory, job, page) && c.view.buffer2 == buffer2
    requires page % 2 == 1 ==> Committed(d.view.memory, c.view.memory, job, page) && d.view.buffer2 == buffer2
    requires page % 2 == 1 ==> !ProgramsFromFirst(d.activity, SwitchPage(job) / 2)
    requires !c.view.violated && !d.view.violated
    requires job.FillsAtOnce(page + 1) ==> !Uses(d.activity, Which(job.Second(page + 1)))
    requires df.select == MaskOf((page + 1) % 2) && df.LinesQuiet() && Listening(df)
    requires df.View(page % 2) == c.view.(memory := c.view.memory[page / 2 := c.view.buffer1], command := NoCommand)
    requires Calmer(Programming(Buffer1, page / 2, 0), df.chips[page % 2].activity)
    requires Later(d, Snap(df, 1 - page % 2))
    ensures TurningStraight(df, job, page + 1, buffer2)
  {
    hide Settled, Committed, Filled;
    ghost var s := page % 2;
    StraightUsesFirst(job, page);
    FilledIsTarget(c.view.buffer1, job, page, PAGE_SIZE);
    if s == 0 {
      CommitOne(c.view.memory, d.view.memory, job, page);
    } else {
      CommitOne(d.view.memory, c.view.memory, job, page);
    }
    BuffersAlternate(job, page);
    StaysFree(Programming(Buffer1, page / 2, 0), df.chips[s].activity, Which(job.Second(page + 2)));
    if job.FillsAtOnce(page + 1) {
      StaysFree(d.activity, df.chips[1 - s].activity, Which(job.Second(page + 1)));
    }
    OldPage(df.View(0).memory, df.View(1).memory, job, page + 1);
  }

  /** After page `page` was programmed: `c` is its chip, `d` the other. */
  lemma ConfinedTurn(df: Dataflash, job: Job, page: nat, c: Snapshot, d: Snapshot, b: Buffer, contents: Page)
    requires |job.before| == MEDIA_PAGES && job.First() <= page < MEDIA_PAGES
    requires ConfinedOn(c, page % 2, job, page) && ConfinedOn(d, 1 - page % 2, job, page)
    requires df.View(page % 2).memory == c.view.memory[page / 2 := contents]
    requires Calmer(Programming(b, page / 2, 0), df.chips[page % 2].activity)
    requires Later(d, Snap(df, 1 - page % 2))
    ensures Confined(df, job, page + 1)
  {
    ConfinedCommit(c, Snap(df, page % 2), page % 2, job, page, b, contents);
    ConfinedFill(d, Snap(df, 1 - page % 2), 1 - page % 2, job, page);
  }

  /** While page `page` is being filled: `c` is its chip, `d` the other. */
  lemma ConfinedWork(df: Dataflash, job: Job, page: nat, c: Snapshot, d: Snapshot)
    requires |job.before| == MEDIA_PAGES
    requires ConfinedOn(c, page % 2, job, page) && ConfinedOn(d, 1 - page % 2, job, page)
    requires MemoryKept(c.activity, c.view.memory, df.View(page % 2).memory)
    requires Calmer(c.activity, df.chips[page % 2].activity)
    requires Later(d, Snap(df, 1 - page % 2))
    ensures Confined(df, job, page)
  {
    ConfinedFill(c, Snap(df, page % 2), page % 2, job, page);
    ConfinedFill(d, Snap(df, 1 - page % 2), 1 - page % 2, job, page);
  }

  /** Programs the page from the selected buffer and selects the next page's chip. */
  method AdvanceRam(df: Dataflash, page: word, second: bool, ghost job: Job, ghost buffer2: Page) returns (second': bool)
    requires RamState(df, job, page, PAGE_SIZE, second, buffer2) && (page + 1) * PAGE_SIZE < job.End()
    modifies df
    ensures page < SwitchPage(job) ==>
      && TurningStraight(df, job, page + 1, buffer2) && job.First() < page + 1
      && second' == (page + 1 == SwitchPage(job))
    ensures page >= SwitchPage(job) ==> TurningStray(df, job, page + 1, Stale(job, buffer2))
    ensures job.Valid() && Confined(df, job, page + 1)
  {
    hide Settled, ConfinedOn, Committed, Filled;
    ghost var c, d := Snap(df, page % 2), Snap(df, 1 - page % 2);
    if page < SwitchPage(job) {
      StraightUsesFirst(job, page);
    }
    second' := CommitAndAdvance(df, second, page);
    ConfinedTurn(df, job, page, c, d, Which(second), c.view.Buf(Which(second)));
    if page < SwitchPage(job) {
      AdvancedStraight(df, page, job, buffer2, c, d);
    } else if page % 2 == 0 {
      assert df.View(0).memory[SwitchPage(job) / 2] == Stale(job, buffer2);
    } else {
      assert df.Undisturbed(0);
    }
  }

  /** What starting on a new page leaves behind, when the next page is the switch page. */
  lemma OpenedStraight(df: Dataflash, page: nat, blocks: nat, job: Job, buffer2: Page, even: Snapshot, odd: Snapshot)
    requires job.Valid() && job.First() <= page < MEDIA_PAGES && page + 1 == SwitchPage(job)
    requires page * PAGE_SIZE < job.End()
    requires Committed(even.view.memory, odd.view.memory, job, page) && even.view.buffer2 == buffer2
    requires !even.view.violated && !odd.view.violated
    requires odd.view.memory[page / 2] == job.before[page]
    requires job.FillsAtOnce(page) ==> !Uses(odd.activity, Which(job.Second(page)))
    requires job.FillsAtOnce(page + 1) ==> !Uses(even.activity, Which(job.Second(page + 1)))
    requires !ProgramsFromFirst(even.activity, SwitchPage(job) / 2)
    requires blocks * VIRTUAL_MEMORY_BLOCK_SIZE == job.End() - page * PAGE_SIZE
    requires df.select == CHIP2 && df.LinesQuiet() && FillingAt(df, false, 0)
    requires var v := odd.view;
      df.View(1) == (if PreloadsTail(blocks) then v.WithBuf(Buffer1, v.memory[page / 2]) else v).(command := df.chips[1].command)
    requires Calmer(odd.activity, df.chips[1].activity) && Later(even, Snap(df, 0))
    requires PreloadsTail(blocks) ==> df.chips[1].activity.Idle?
    ensures Straight(df, job, page, 0, buffer2)
  {
    assert page % 2 == 1;
    StraightUsesFirst(job, page);
    assert job.End() < (page + 1) * PAGE_SIZE ==> blocks == 1;
    assert df.View(1).memory == odd.view.memory;
    FilledAtStart(df.View(1).buffer1, job, page);
    if job.FillsAtOnce(page) {
      StaysFree(odd.activity, df.chips[1].activity, Buffer1);
    }
    if job.FillsAtOnce(page + 1) {
      StaysFree(even.activity, df.chips[0].activity, Which(job.Second(page + 1)));
    }
  }

  /** Starts on a new page. */
  method OpenRam(df: Dataflash, page: word, second: bool, blocks: word, ghost job: Job, ghost buffer2: Page)
    requires page <= SwitchPage(job) ==>
      TurningStraight(df, job, page, buffer2) && job.First() < page && second == (page == SwitchPage(job))
    requires |job.before| == MEDIA_PAGES && SwitchPage(job) <= page ==> SwitchPage(job) * PAGE_SIZE < job.End() <= MEDIA_BYTES
    requires page > SwitchPage(job) ==>
      |job.before| == MEDIA_PAGES && TurningStray(df, job, page, Stale(job, buffer2))
    requires blocks * VIRTUAL_MEMORY_BLOCK_SIZE == job.End() - page * PAGE_SIZE && blocks > 0
    requires job.Valid() && Confined(df, job, page)
    modifies df
    ensures RamState(df, job, page, 0, second, buffer2)
  {
    hide Settled, ConfinedOn;
    ghost var s := page % 2;
    assert df.Current() == s;
    ghost var c, d := Snap(df, s), Snap(df, 1 - s);
    ghost var even, odd := Snap(df, 0), Snap(df, 1);
    var preload := PreloadsTail(blocks);
    OpenBufferRam(df, second, page, preload);
    assert df.Current() == s && df.Undisturbed(1 - s);
    KeptAtFirst(c.activity, c.view.memory);
    assert df.View(s).memory == c.view.memory;
    ConfinedWork(df, job, page, c, d);
    if page < SwitchPage(job) {
      assert page % 2 == 1;
      OpenedStraight(df, page, blocks, job, buffer2, even, odd);
    } else if page == SwitchPage(job) {
      assert preload == PreloadsTail((job.End() - page * PAGE_SIZE) / VIRTUAL_MEMORY_BLOCK_SIZE);
    }
  }

  method TurnPageRam(df: Dataflash, page: word, second: bool, blocks: word, ghost job: Job, ghost buffer2: Page)
    returns (second': bool)
    requires RamState(df, job, page, PAGE_SIZE, second, buffer2)
    requires blocks > 0 && blocks * VIRTUAL_MEMORY_BLOCK_SIZE == job.End() - (page + 1) * PAGE_SIZE
    modifies df
    ensures RamState(df, job, page + 1, 0, second', buffer2)
  {
    second' := AdvanceRam(df, page, second, job, buffer2);
    OpenRam(df, page + 1, second', blocks, job, buffer2);
  }

  /** What a chunk leaves behind before the switch: `c` is the page's chip, `d` the other. */
  lemma ChunkedStraight(df: Dataflash, page: nat, filled: nat, bytes: seq<byte>, job: Job, buffer2: Page,
                        c: Snapshot, d: Snapshot)
    requires job.Valid() && job.First() <= page < SwitchPage(job) && page < MEDIA_PAGES && |bytes| == CHUNK
    requires filled + CHUNK <= PAGE_SIZE && page * PAGE_SIZE + filled + CHUNK <= job.End()
    requires job.start <= page * PAGE_SIZE + filled
    requires bytes == job.data[page * PAGE_SIZE + filled - job.start..][..CHUNK]
    requires Filled(c.view.buffer1, job, page, filled)
    requires page % 2 == 0 ==> Committed(c.view.memory, d.view.memory, job, page) && c.view.buffer2 == buffer2
    requires page % 2 == 1 ==> Committed(d.view.memory, c.view.memory, job, page) && d.view.buffer2 == buffer2
    requires !c.view.violated && !d.view.violated
    requires !Uses(c.activity, Buffer1)
    requires job.FillsAtOnce(page + 1) ==> !Uses(d.activity, Which(job.Second(page + 1)))
    requires !ProgramsFromFirst((if page % 2 == 0 then c else d).activity, SwitchPage(job) / 2)
    requires df.select == MaskOf(page % 2) && df.LinesQuiet() && FillingAt(df, false, (filled + CHUNK) % PAGE_SIZE)
    requires df.View(page % 2).buffer1 == Spliced(c.view.buffer1, filled, bytes)
    requires df.View(page % 2).OnlyBufDiffers(Buffer1, c.view)
    requires Calmer(c.activity, df.chips[page % 2].activity) && Later(d, Snap(df, 1 - page % 2))
    ensures Straight(df, job, page, filled + CHUNK, buffer2)
  {
    ghost var s := page % 2;
    StraightUsesFirst(job, page);
    SplicedIsFilled(c.view.buffer1, job, page, filled, bytes);
    StaysFree(c.activity, df.chips[s].activity, Buffer1);
    if job.FillsAtOnce(page + 1) {
      StaysFree(d.activity, df.chips[1 - s].activity, Which(job.Second(page + 1)));
    }
  }

  lemma PrefixSlice(s: seq<byte>, length: nat, at: nat, count: nat)
    requires at + count <= length <= |s|
    ensures s[..length][at..][..count] == s[at..at + count]
  {
  }

  method ChunkRam(df: Dataflash, source: array<byte>, position: nat, second: bool, ghost page: nat, ghost filled: nat,
                  ghost job: Job, ghost buffer2: Page)
    requires RamState(df, job, page, filled, second, buffer2)
    requires filled + CHUNK <= PAGE_SIZE && page * PAGE_SIZE + filled + CHUNK <= job.End()
    requires position == page * PAGE_SIZE + filled - job.start
    requires |job.data| <= source.Length && job.data == source[..|job.data|]
    modifies df
    ensures RamState(df, job, page, filled + CHUNK, second, buffer2)
  {
    hide Settled, ConfinedOn, Committed, Filled, Spliced;
    ghost var s := page % 2;
    assert df.Current() == s;
    if page < SwitchPage(job) {
      StraightUsesFirst(job, page);
    }
    ghost var c, d := Snap(df, s), Snap(df, 1 - s);
    ghost var bytes := source[position..position + CHUNK];
    PrefixSlice(source[..], |job.data|, position, CHUNK);
    FillChunkRam(df, source, position, filled);
    assert df.Current() == s && df.Undisturbed(1 - s);
    ConfinedWork(df, job, page, c, d);
    if page < SwitchPage(job) {
      ChunkedStraight(df, page, filled, bytes, job, buffer2, c, d);
    }
  }

  /** The body of the inner loop. */
  method NextChunkRam(df: Dataflash, source: array<byte>, position: nat, page: word, pageByteDiv16: nat, second: bool,
                      blocks: word, ghost inBlock: nat, ghost job: Job, ghost buffer2: Page)
    returns (page': word, pageByteDiv16': nat, second': bool)
    requires pageByteDiv16 <= PAGE_SIZE / 16 && blocks > 0 && inBlock < VIRTUAL_MEMORY_BLOCK_SIZE / 16
    requires RamState(df, job, page, pageByteDiv16 * 16, second, buffer2)
    requires position == page * PAGE_SIZE + pageByteDiv16 * 16 - job.start
    requires page * PAGE_SIZE + pageByteDiv16 * 16 == job.End() - blocks * VIRTUAL_MEMORY_BLOCK_SIZE + inBlock * 16
    requires |job.data| <= source.Length && job.data == source[..|job.data|]
    modifies df
    ensures 0 < pageByteDiv16' <= PAGE_SIZE / 16
    ensures RamState(df, job, page', pageByteDiv16' * 16, second', buffer2)
    ensures page' * PAGE_SIZE + pageByteDiv16' * 16 == page * PAGE_SIZE + pageByteDiv16 * 16 + CHUNK
  {
    hide Settled;
    page', pageByteDiv16', second' := page, pageByteDiv16, second;
    if pageByteDiv16 == PAGE_SIZE / 16 {
      PageEndsBetweenBlocks(job, page, blocks, inBlock);
      second' := TurnPageRam(df, page, second, blocks, job, buffer2);
      pageByteDiv16' := 0;
      page' := page + 1;
    }
    ChunkRam(df, source, position, second', page', pageByteDiv16' * 16, job, buffer2);
    pageByteDiv16' := pageByteDiv16' + 1;
  }

  /** One block of 32 chunks. */
  method WriteBlockRam(df: Dataflash, source: array<byte>, position: nat, page: word, pageByteDiv16: nat, second: bool,
                       blocks: word, ghost job: Job, ghost buffer2: Page)
    returns (position': nat, page': word, pageByteDiv16': nat, second': bool)
    requires pageByteDiv16 <= PAGE_SIZE / 16 && blocks > 0
    requires RamState(df, job, page, pageByteDiv16 * 16, second, buffer2)
    requires position == page * PAGE_SIZE + pageByteDiv16 * 16 - job.start
    requires page * PAGE_SIZE + pageByteDiv16 * 16 == job.End() - blocks * VIRTUAL_MEMORY_BLOCK_SIZE
    requires |job.data| <= source.Length && job.data == source[..|job.data|]
    modifies df
    ensures 0 < pageByteDiv16' <= PAGE_SIZE / 16
    ensures RamState(df, job, page', pageByteDiv16' * 16, second', buffer2)
    ensures position' == page' * PAGE_SIZE + pageByteDiv16' * 16 - job.start
    ensures position' == position + VIRTUAL_MEMORY_BLOCK_SIZE
  {
    position', page', pageByteDiv16', second' := position, page, pageByteDiv16, second;
    var inBlockDiv16 := 0;
    while inBlockDiv16 < VIRTUAL_MEMORY_BLOCK_SIZE / 16
      invariant 0 <= inBlockDiv16 <= VIRTUAL_MEMORY_BLOCK_SIZE / 16 && pageByteDiv16' <= PAGE_SIZE / 16
      invariant inBlockDiv16 > 0 ==> pageByteDiv16' > 0
      invariant RamState(df, job, page', pageByteDiv16' * 16, second', buffer2)
      invariant position' == page' * PAGE_SIZE + pageByteDiv16' * 16 - job.start
      invariant position' == position + inBlockDiv16 * 16
    {
      page', pageByteDiv16', second' :=
        NextChunkRam(df, source, position', page', pageByteDiv16', second', blocks, inBlockDiv16, job, buffer2);
      position' := position' + CHUNK;
      inBlockDiv16 := inBlockDiv16 + 1;
    }
  }

  /** Programs a page from a buffer, waits for it and lets go of the chip. */
  method CommitAndRelease(df: Dataflash, second: bool, page: word)
    requires page < MEDIA_PAGES && df.select == MaskOf(page % 2) && df.LinesQuiet()
    requires !Starts(df.chips[page % 2].command)
    modifies df
    ensures df.select == NO_CHIP && df.LinesQuiet() && df.chips[page % 2].activity.Idle?
    ensures var v := old(df.View(page % 2));
      df.View(page % 2) == v.(memory := v.memory[page / 2 := v.Buf(Which(second))], command := NoCommand)
    ensures df.Undisturbed(1 - page % 2)
  {
    hide Settled, Carried;
    ghost var s := page % 2;
    Commit(df, second, page);
    SettledIs(df.chips[s]);
    CarriedPlain(df.View(s));
    df.DeselectChip();
  }

  /** What programming the last page leaves behind: `c` is the page's chip, `d` the other. */
  lemma FinishedStraight(df: Dataflash, page: nat, filled: nat, job: Job, c: Snapshot, d: Snapshot)
    requires job.Valid() && job.First() <= page < MEDIA_PAGES && filled <= PAGE_SIZE
    requires page * PAGE_SIZE + filled == job.End() && Filled(c.view.buffer1, job, page, filled)
    requires page % 2 == 0 ==> Committed(c.view.memory, d.view.memory, job, page)
    requires page % 2 == 1 ==> Committed(d.view.memory, c.view.memory, job, page)
    requires !c.view.violated && !d.view.violated
    requires df.View(page % 2) == c.view.(memory := c.view.memory[page / 2 := c.view.buffer1], command := NoCommand)
    requires Later(d, Snap(df, 1 - page % 2)) && df.select == NO_CHIP && df.LinesQuiet()
    ensures ReadyOnceIdle(df)
    ensures Media(df) == Flat(job.before)[..job.start] + job.data + Flat(job.before)[job.End()..]
  {
    FilledIsTarget(c.view.buffer1, job, page, filled);
    if page % 2 == 0 {
      CommitOne(c.view.memory, d.view.memory, job, page);
    } else {
      CommitOne(d.view.memory, c.view.memory, job, page);
    }
    AllCommitted(job, page + 1);
  }

  /** Past the switch the last page leaves the switch page as it is bound to be. */
  lemma FinishedStray(df: Dataflash, page: nat, second: bool, job: Job, stale: Page, c: Snapshot, d: Snapshot)
    requires job.Valid() && SwitchPage(job) <= page < MEDIA_PAGES
    requires page == SwitchPage(job) ==> second && c.view.buffer2 == stale
    requires page > SwitchPage(job) ==> (if page % 2 == 0 then c else d).view.memory[SwitchPage(job) / 2] == stale
    requires df.View(page % 2) == c.view.(memory := c.view.memory[page / 2 := c.view.Buf(Which(second))], command := NoCommand)
    requires Later(d, Snap(df, 1 - page % 2))
    ensures MediaPages(df)[SwitchPage(job)] == stale
  {
    var p := SwitchPage(job);
    assert MediaPages(df)[p] == df.View(0).memory[p / 2];
    if page % 2 == 0 && page != p {
      assert page / 2 != p / 2;
    }
  }

  /** Programs the last page. */
  method FinishRam(df: Dataflash, page: word, second: bool, ghost filled: nat, ghost job: Job, ghost buffer2: Page)
    requires RamState(df, job, page, filled, second, buffer2) && page * PAGE_SIZE + filled == job.End()
    modifies df
    ensures OutsideKept(job, page + 1, MediaPages(df)) && df.select == NO_CHIP
    ensures job.End() <= SwitchPage(job) * PAGE_SIZE ==>
      ReadyOnceIdle(df) && Media(df) == Flat(job.before)[..job.start] + job.data + Flat(job.before)[job.End()..]
    ensures job.End() > SwitchPage(job) * PAGE_SIZE ==> MediaPages(df)[SwitchPage(job)] == Stale(job, buffer2)
  {
    hide Settled, ConfinedOn, Committed, Filled;
    ghost var c, d := Snap(df, page % 2), Snap(df, 1 - page % 2);
    if page < SwitchPage(job) {
      StraightUsesFirst(job, page);
    }
    CommitAndRelease(df, second, page);
    ConfinedTurn(df, job, page, c, d, Which(second), c.view.Buf(Which(second)));
    OutsideUntouched(df, job, page + 1);
    if page < SwitchPage(job) {
      assert job.End() <= SwitchPage(job) * PAGE_SIZE;
      FinishedStraight(df, page, filled, job, c, d);
    } else {
      FinishedStray(df, page, second, job, Stale(job, buffer2), c, d);
    }
  }

  /** All blocks from RAM, one after the other; the last page touched is left in a buffer. */
  method SendBlocksRam(df: Dataflash, page: word, pageByteDiv16: nat, totalBlocks: word, source: array<byte>,
                       ghost job: Job, ghost buffer2: Page)
    returns (page': word, ghost pageByteDiv16': nat, second: bool)
    requires pageByteDiv16 <= PAGE_SIZE / 16 && page * PAGE_SIZE + pageByteDiv16 * 16 == job.start
    requires page == job.First()
    requires RamState(df, job, page, pageByteDiv16 * 16, false, buffer2)
    requires |job.data| == totalBlocks * VIRTUAL_MEMORY_BLOCK_SIZE <= source.Length && job.data == source[..|job.data|]
    modifies df
    ensures RamState(df, job, page', pageByteDiv16' * 16, second, buffer2)
    ensures page' * PAGE_SIZE + pageByteDiv16' * 16 == job.End()
    ensures pageByteDiv16' <= PAGE_SIZE / 16 && (page' > job.First() ==> pageByteDiv16' > 0)
  {
    var div16: nat := pageByteDiv16;
    page', second := page, false;
    var blocks, position: nat := totalBlocks, 0;
    while blocks > 0
      invariant 0 <= blocks <= totalBlocks && div16 <= PAGE_SIZE / 16
      invariant page' > job.First() ==> div16 > 0
      invariant RamState(df, job, page', div16 * 16, second, buffer2)
      invariant position == page' * PAGE_SIZE + div16 * 16 - job.start
      invariant position == (totalBlocks - blocks) * VIRTUAL_MEMORY_BLOCK_SIZE
    {
      position, page', div16, second :=
        WriteBlockRam(df, source, position, page', div16, second, blocks, job, buffer2);
      blocks := blocks - 1;
    }
    pageByteDiv16' := div16;
  }

  /** The first page's chip is idle and the other one was, so nothing can change yet. */
  lemma ConfinedBefore(df: Dataflash, job: Job, page: nat, filled: nat)
    requires Writing(df, job, page, filled) && Beside(df, job, page) && page == job.First()
    requires job.aside.Idle? && df.chips[page % 2].activity.Idle?
    ensures Confined(df, job, page)
  {
    assert job.After(page) == job.before;
    ConfinedAtFirst(Snap(df, 0), Snap(df, 1), job);
  }

  method RunJobRam(df: Dataflash, page: word, pageByte: word, totalBlocks: word, source: array<byte>, ghost job: Job)
    requires Ready(df) && job.Valid() && job.before == MediaPages(df)
    requires page == job.First() && pageByte == job.start % PAGE_SIZE
    requires |job.data| == totalBlocks * VIRTUAL_MEMORY_BLOCK_SIZE <= source.Length && job.data == source[..|job.data|]
    requires job.aside == df.chips[1 - page % 2].activity
    modifies df
    ensures OutsideKept(job, job.Last() + 1, MediaPages(df)) && df.select == NO_CHIP
    ensures job.End() <= SwitchPage(job) * PAGE_SIZE ==>
      ReadyOnceIdle(df) && Media(df) == Flat(job.before)[..job.start] + job.data + Flat(job.before)[job.End()..]
    ensures job.End() > SwitchPage(job) * PAGE_SIZE ==>
      MediaPages(df)[SwitchPage(job)] == Stale(job, old(df.View(0)).buffer2)
  {
    ghost var buffer2 := df.View(0).buffer2;
    BlockStart(job.start);
    OpenFirstPage(df, page, pageByte, job);
    ConfinedBefore(df, job, page, pageByte);
    var last, div16, second := SendBlocksRam(df, page, pageByte / 16, totalBlocks, source, job, buffer2);
    LastPageIs(job, last, div16 * 16);
    FinishRam(df, last, second, div16 * 16, job, buffer2);
  }

  /** The write of `totalBlocks` OS blocks from the beginning of RAM as a job. */
  ghost function RamJob(before: seq<Page>, source: seq<byte>, blockAddress: nat, totalBlocks: nat): (job: Job)
    requires |before| == MEDIA_PAGES
    requires blockAddress < MEDIA_BLOCKS && blockAddress + totalBlocks <= MEDIA_BLOCKS
    requires totalBlocks * VIRTUAL_MEMORY_BLOCK_SIZE <= |source|
    ensures job.Valid()
  {
    Job(before, blockAddress * VIRTUAL_MEMORY_BLOCK_SIZE, source[..totalBlocks * VIRTUAL_MEMORY_BLOCK_SIZE], Idle)
  }

  /** Writes OS blocks from RAM. As long as the range ends before the switch page, which is when
      its last page is at most `first page | 1`, this is a correct write; otherwise the switch
      page does not get its data. */
  method WriteBlocksRam(df: Dataflash, blockAddress: nat, totalBlocks: word, source: array<byte>)
    requires Ready(df)
    requires blockAddress < MEDIA_BLOCKS && blockAddress + totalBlocks <= MEDIA_BLOCKS
    requires totalBlocks * VIRTUAL_MEMORY_BLOCK_SIZE <= source.Length
    modifies df
    ensures df.select == NO_CHIP
    ensures var count := totalBlocks * VIRTUAL_MEMORY_BLOCK_SIZE;
      var job := RamJob(old(MediaPages(df)), source[..], blockAddress, totalBlocks);
      && OutsideKept(job, job.Last() + 1, MediaPages(df))
      && (job.End() <= SwitchPage(job) * PAGE_SIZE ==>
            && ReadyOnceIdle(df)
            && Media(df) == old(Media(df))[..job.start] + source[..count] + old(Media(df))[job.start + count..])
      && (job.End() > SwitchPage(job) * PAGE_SIZE ==>
            MediaPages(df)[SwitchPage(job)] == Stale(job, old(df.View(0)).buffer2))
  {
    ghost var job := RamJob(MediaPages(df), source[..], blockAddress, totalBlocks);
    assert source[..][..|job.data|] == source[..|job.data|];
    BlockPlace(blockAddress);
    var page: word := blockAddress * VIRTUAL_MEMORY_BLOCK_SIZE / PAGE_SIZE;
    var pageByte: word := blockAddress * VIRTUAL_MEMORY_BLOCK_SIZE % PAGE_SIZE;
    RunJobRam(df, page, pageByte, totalBlocks, source, job);
  }

  /** A range that reaches the switch page loses data whatever the media and the buffer held:
      some data of that length is not what the page ends up with. */
  lemma RamWriteLosesData(before: seq<Page>, buffer2: Page, start: nat, count: nat) returns (data: seq<byte>)
    requires Job(before, start, seq(count, _ => 0), Idle).Valid()
    requires start + count > SwitchPage(Job(before, start, [], Idle)) * PAGE_SIZE
    ensures |data| == count
    ensures Job(before, start, data, Idle).Target(SwitchPage(Job(before, start, data, Idle))) != Stale(Job(before, start, data, Idle), buffer2)
  {
    var p := SwitchPage(Job(before, start, [], Idle));
    var stale := Stale(Job(before, start, seq(count, _ => 0), Idle), buffer2);
    var other: byte := if stale[0] == 0 then 1 else 0;
    data := seq(count, _ => other);
    var job := Job(before, start, data, Idle);
    assert job.Target(p)[0] == data[p * PAGE_SIZE - start];
  }

  /** RAM that held `was` once the first `count` bytes of a read from `start` are in. */
  function Fetched(media: seq<byte>, start: nat, was: seq<byte>, count: nat): seq<byte>
    requires start + count <= |media| && count <= |was|
  {
    media[start..start + count] + was[count..]
  }

  /** Reads OS blocks into RAM. */
  method ReadBlocksRam(df: Dataflash, blockAddress: nat, totalBlocks: word, target: array<byte>)
    requires Ready(df)
    requires blockAddress < MEDIA_BLOCKS && blockAddress + totalBlocks <= MEDIA_BLOCKS
    requires totalBlocks * VIRTUAL_MEMORY_BLOCK_SIZE <= target.Length
    modifies df, target
    ensures Ready(df) && df.select == NO_CHIP
    ensures df.chips[0].(command := NoCommand) == old(df.chips[0]).(command := NoCommand)
    ensures df.chips[1].(command := NoCommand) == old(df.chips[1]).(command := NoCommand)
    ensures var start, count := blockAddress * VIRTUAL_MEMORY_BLOCK_SIZE, totalBlocks * VIRTUAL_MEMORY_BLOCK_SIZE;
      target[..] == old(Media(df))[start..start + count] + old(target[..])[count..]
  {
    ghost var c0, c1 := df.chips[0].(command := NoCommand), df.chips[1].(command := NoCommand);
    assert MediaOf(c0, c1) == Media(df);
    ghost var start := blockAddress * VIRTUAL_MEMORY_BLOCK_SIZE;
    BlockPlace(blockAddress);
    var page: word := blockAddress * VIRTUAL_MEMORY_BLOCK_SIZE / PAGE_SIZE;
    var pageByte: word := blockAddress * VIRTUAL_MEMORY_BLOCK_SIZE % PAGE_SIZE;
    var pageByteDiv16: nat := pageByte / 16;
    OpenRead(df, page, pageByte);
    page, pageByteDiv16 := FetchBlocksRam(df, page, pageByteDiv16, totalBlocks, target, c0, c1, start);
    LetGo(df, c0, c1, page, pageByteDiv16 * 16);
  }

  /** All blocks into RAM, one after the other. */
  method FetchBlocksRam(df: Dataflash, page: word, pageByteDiv16: nat, totalBlocks: word, target: array<byte>,
                        ghost c0: Chip, ghost c1: Chip, ghost start: nat)
    returns (page': word, pageByteDiv16': nat)
    requires ReadingState(df, c0, c1, page, pageByteDiv16 * 16)
    requires page * PAGE_SIZE + pageByteDiv16 * 16 == start
    requires start + totalBlocks * VIRTUAL_MEMORY_BLOCK_SIZE <= MEDIA_BYTES
    requires totalBlocks * VIRTUAL_MEMORY_BLOCK_SIZE <= target.Length
    modifies df, target
    ensures ReadingState(df, c0, c1, page', pageByteDiv16' * 16)
    ensures var count := totalBlocks * VIRTUAL_MEMORY_BLOCK_SIZE;
      target[..] == Fetched(MediaOf(c0, c1), start, old(target[..]), count)
  {
    ghost var was := target[..];
    ghost var media := MediaOf(c0, c1);
    assert Fetched(media, start, was, 0) == was;
    page', pageByteDiv16' := page, pageByteDiv16;
    var blocks, position: nat := totalBlocks, 0;
    while blocks > 0
      invariant 0 <= blocks <= totalBlocks
      invariant ReadingState(df, c0, c1, page', pageByteDiv16' * 16)
      invariant page' * PAGE_SIZE + pageByteDiv16' * 16 == start + position
      invariant position == (totalBlocks - blocks) * VIRTUAL_MEMORY_BLOCK_SIZE
      invariant target[..] == Fetched(media, start, was, position)
    {
      position, page', pageByteDiv16' := ReadBlockRam(df, target, position, page', pageByteDiv16', c0, c1, start, was);
      blocks := blocks - 1;
    }
    assert position == totalBlocks * VIRTUAL_MEMORY_BLOCK_SIZE;
  }

  /** One block of 32 chunks into RAM. */
  method ReadBlockRam(df: Dataflash, target: array<byte>, position: nat, page: word, pageByteDiv16: nat,
                      ghost c0: Chip, ghost c1: Chip, ghost start: nat, ghost was: seq<byte>)
    returns (position': nat, page': word, pageByteDiv16': nat)
    requires ReadingState(df, c0, c1, page, pageByteDiv16 * 16)
    requires page * PAGE_SIZE + pageByteDiv16 * 16 == start + position
    requires start + position + VIRTUAL_MEMORY_BLOCK_SIZE <= MEDIA_BYTES
    requires position + VIRTUAL_MEMORY_BLOCK_SIZE <= target.Length == |was|
    requires target[..] == Fetched(MediaOf(c0, c1), start, was, position)
    modifies df, target
    ensures ReadingState(df, c0, c1, page', pageByteDiv16' * 16)
    ensures page' * PAGE_SIZE + pageByteDiv16' * 16 == start + position'
    ensures position' == position + VIRTUAL_MEMORY_BLOCK_SIZE
    ensures target[..] == Fetched(MediaOf(c0, c1), start, was, position')
  {
    position', page', pageByteDiv16' := position, page, pageByteDiv16;
    var inBlockDiv16 := 0;
    while inBlockDiv16 < VIRTUAL_MEMORY_BLOCK_SIZE / 16
      invariant 0 <= inBlockDiv16 <= VIRTUAL_MEMORY_BLOCK_SIZE / 16
      invariant ReadingState(df, c0, c1, page', pageByteDiv16' * 16)
      invariant page' * PAGE_SIZE + pageByteDiv16' * 16 == start + position'
      invariant position' == position + inBlockDiv16 * 16
      invariant target[..] == Fetched(MediaOf(c0, c1), start, was, position')
    {
      page', pageByteDiv16' := TurnReadPage(df, page', pageByteDiv16', c0, c1);
      ReadChunkRam(df, target, position', c0, c1, page', pageByteDiv16' * 16, start, was);
      position' := position' + CHUNK;
      pageByteDiv16' := pageByteDiv16' + 1;
      inBlockDiv16 := inBlockDiv16 + 1;
    }
  }

  method ReadChunkRam(df: Dataflash, target: array<byte>, position: nat, ghost c0: Chip, ghost c1: Chip,
                      ghost page: nat, ghost offset: nat, ghost start: nat, ghost was: seq<byte>)
    requires ReadingState(df, c0, c1, page, offset) && offset + CHUNK <= PAGE_SIZE
    requires page * PAGE_SIZE + offset == start + position
    requires position + CHUNK <= target.Length == |was|
    requires target[..] == Fetched(MediaOf(c0, c1), start, was, position)
    modifies df, target
    ensures ReadingState(df, c0, c1, page, offset + CHUNK)
    ensures target[..] == Fetched(MediaOf(c0, c1), start, was, position + CHUNK)
  {
    var i := 0;
    while i < CHUNK
      invariant 0 <= i <= CHUNK
      invariant ReadingState(df, c0, c1, page, offset + i)
      invariant target[..] == Fetched(MediaOf(c0, c1), start, was, position + i)
    {
      ReadByteRam(df, target, position + i, c0, c1, page, offset + i, start, was);
      i := i + 1;
    }
  }

  method ReadByteRam(df: Dataflash, target: array<byte>, position: nat, ghost c0: Chip, ghost c1: Chip,
                     ghost page: nat, ghost offset: nat, ghost start: nat, ghost was: seq<byte>)
    requires ReadingState(df, c0, c1, page, offset) && offset < PAGE_SIZE
    requires page * PAGE_SIZE + offset == start + position
    requires position < target.Length == |was|
    requires target[..] == Fetched(MediaOf(c0, c1), start, was, position)
    modifies df, target
    ensures ReadingState(df, c0, c1, page, offset + 1)
    ensures target[..] == Fetched(MediaOf(c0, c1), start, was, position + 1)
  {
    PutNext(target[..], MediaOf(c0, c1), start, was, position);
    var b := ReadByteAt(df, c0, c1, page, offset);
    target[position] := b;
    assert target[..] == old(target[..])[position := b];
  }

  lemma PutNext(target: seq<byte>, media: seq<byte>, start: nat, was: seq<byte>, position: nat)
    requires position < |was| && start + position < |media|
    requires target == Fetched(media, start, was, position)
    ensures target[position := media[start + position]] == Fetched(media, start, was, position + 1)
  {
  }
}
