/** Maps 512-byte OS blocks onto the 1024-byte pages of two interleaved dataflash ICs. */
module DataflashManager {
  import opened Bytes
  import opened DataflashChip
  import opened DataflashBus
  import opened DataflashCommands

  const VIRTUAL_MEMORY_BLOCK_SIZE := 512
  const MEDIA_BYTES := MEDIA_PAGES * PAGE_SIZE
  const MEDIA_BLOCKS := MEDIA_BYTES / VIRTUAL_MEMORY_BLOCK_SIZE
  const CHUNK := 16

  /** The data OUT endpoint: the bytes the host sends, and how many were taken. When packets
      arrive, whether the host fails, and when it resets the interface is up to the host. */
  class OutEndpoint {
    const stream: nat -> byte
    var taken: nat
    /** How often the host has failed to send a packet or has reset the interface. */
    ghost var failures: nat

    constructor (stream: nat -> byte)
      ensures this.stream == stream && taken == 0 && failures == 0
    {
      this.stream := stream;
      taken, failures := 0, 0;
    }

    method WaitUntilReady() returns (failed: bool)
      modifies this`failures
      ensures failures == old(failures) + if failed then 1 else 0
    {
      failed := *;
      if failed {
        failures := failures + 1;
      }
    }

    method IsReadWriteAllowed() returns (allowed: bool) {
      allowed := *;
    }

    method ClearOUT() {
    }

    method IsMassStoreReset() returns (reset: bool)
      modifies this`failures
      ensures failures == old(failures) + if reset then 1 else 0
    {
      reset := *;
      if reset {
        failures := failures + 1;
      }
    }

    /** Makes sure that there is data to read: gets the next packet if this one is used up. */
    method AwaitData() returns (failed: bool)
      modifies this`failures
      ensures failures == old(failures) + if failed then 1 else 0
    {
      failed := false;
      var allowed := IsReadWriteAllowed();
      if !allowed {
        ClearOUT();
        failed := WaitUntilReady();
      }
    }

    /** Hands back a packet that is used up. */
    method Finish() {
      var allowed := IsReadWriteAllowed();
      if !allowed {
        ClearOUT();
      }
    }

    method ReadByte() returns (b: byte)
      modifies this`taken
      ensures b == stream(old(taken)) && taken == old(taken) + 1
    {
      b := stream(taken);
      taken := taken + 1;
    }
  }

  // ---- the media as a caller sees it ------------------------------------------------------

  /** Page `p` of the media: even pages live in the first chip, odd ones in the second. */
  function PageOf(even: Memory, odd: Memory, p: nat): Page
    requires p < MEDIA_PAGES
  {
    if p % 2 == 0 then even[p / 2] else odd[p / 2]
  }

  /** The pages of the media in order. */
  ghost function Pages(even: Memory, odd: Memory): (s: seq<Page>)
    ensures |s| == MEDIA_PAGES
  {
    seq(MEDIA_PAGES, p requires 0 <= p < MEDIA_PAGES => PageOf(even, odd, p))
  }

  ghost function MediaPages(df: Dataflash): seq<Page>
    reads df
  {
    Pages(df.View(0).memory, df.View(1).memory)
  }

  /** Pages laid end to end. */
  ghost function Flat(pages: seq<Page>): (s: seq<byte>)
    ensures |s| == |pages| * PAGE_SIZE
  {
    seq(|pages| * PAGE_SIZE, k requires 0 <= k < |pages| * PAGE_SIZE => pages[k / PAGE_SIZE][k % PAGE_SIZE])
  }

  /** The whole storage medium as one flat sequence of bytes. */
  ghost function Media(df: Dataflash): seq<byte>
    reads df
  {
    Flat(MediaPages(df))
  }

  ghost predicate AllIdle(df: Dataflash)
    reads df
  {
    df.chips[0].activity.Idle? && df.chips[1].activity.Idle?
  }

  /** No chip was ever used in a way it does not allow. */
  ghost predicate NoViolation(df: Dataflash)
    reads df
  {
    !df.View(0).violated && !df.View(1).violated
  }

  /** The `count` bytes of a stream from `from` on. */
  function Received(stream: nat -> byte, from: nat, count: nat): (s: seq<byte>)
    ensures |s| == count
  {
    seq(count, i requires 0 <= i => stream(from + i))
  }

  /** A write of `data` at byte `start` of media that held `before`. When it begins, the chip
      that does not hold the first page is doing `aside`. */
  datatype Job = Job(before: seq<Page>, start: nat, data: seq<byte>, aside: Activity) {
    ghost predicate Valid() {
      && |before| == MEDIA_PAGES
      && start % VIRTUAL_MEMORY_BLOCK_SIZE == 0
      && |data| % VIRTUAL_MEMORY_BLOCK_SIZE == 0
      && start < MEDIA_BYTES
      && start + |data| <= MEDIA_BYTES
    }

    function First(): nat {
      start / PAGE_SIZE
    }

    function End(): nat {
      start + |data|
    }

    /** The last page the write touches. */
    function Last(): nat {
      if data == [] then First() else (End() - 1) / PAGE_SIZE
    }

    /** The contents page `p` must end up with. */
    ghost function Target(p: nat): Page
      requires p < |before|
    {
      seq(PAGE_SIZE, o requires 0 <= o < PAGE_SIZE =>
        var k := p * PAGE_SIZE + o;
        if start <= k < start + |data| then data[k - start] else before[p][o])
    }

    /** The pages of the media once the ones before `page` have been programmed. */
    ghost function After(page: nat): seq<Page> {
      seq(|before|, p requires 0 <= p < |before| => if First() <= p < page then Target(p) else before[p])
    }

    /** Which buffer the manager uses for page `p`: it switches each time both chips got a page. */
    predicate Second(p: nat) {
      (p / 2 + First() / 2) % 2 == 1
    }

    /** Is page `p` one after the first whose buffer is filled without a preload, and so without
        waiting for its chip? */
    predicate FillsAtOnce(p: nat) {
      p * PAGE_SIZE < End() && !PreloadsTail((End() - p * PAGE_SIZE) / VIRTUAL_MEMORY_BLOCK_SIZE)
    }

    /** What the other chip was last told to do when the manager comes to `page`. */
    function Meanwhile(page: nat): Activity
      requires page <= MEDIA_PAGES
    {
      if page <= First() then aside else Programming(Which(Second(page - 1)), (page - 1) / 2, 0)
    }
  }

  /** Does a new page with `blocks` blocks still to write get preloaded? The product is a
      16-bit one. */
  predicate PreloadsTail(blocks: nat) {
    blocks * (VIRTUAL_MEMORY_BLOCK_SIZE / 16) % 0x1_0000 < PAGE_SIZE / 16
  }

  /** The pages before `page` hold their new contents, all others what they held before. */
  ghost predicate Committed(even: Memory, odd: Memory, job: Job, page: nat)
    requires |job.before| == MEDIA_PAGES
  {
    Pages(even, odd) == job.After(page)
  }

  lemma CommitOne(even: Memory, odd: Memory, job: Job, page: nat)
    requires |job.before| == MEDIA_PAGES && job.First() <= page < MEDIA_PAGES
    requires Committed(even, odd, job, page)
    ensures page % 2 == 0 ==> Committed(even[page / 2 := job.Target(page)], odd, job, page + 1)
    ensures page % 2 == 1 ==> Committed(even, odd[page / 2 := job.Target(page)], job, page + 1)
  {
    var even', odd' := even, odd;
    if page % 2 == 0 {
      even' := even[page / 2 := job.Target(page)];
    } else {
      odd' := odd[page / 2 := job.Target(page)];
    }
    forall p | 0 <= p < MEDIA_PAGES ensures Pages(even', odd')[p] == job.After(page + 1)[p] {
      assert Pages(even, odd)[p] == job.After(page)[p];
    }
  }

  /** `buffer` holds the new contents of `page` up to `filled`; what is left of the page
      is either still to come or its old contents. */
  ghost predicate Filled(buffer: Page, job: Job, page: nat, filled: nat)
    requires page < |job.before| && filled <= PAGE_SIZE
  {
    && buffer[..filled] == job.Target(page)[..filled]
    && (job.End() < (page + 1) * PAGE_SIZE ==> buffer[filled..] == job.before[page][filled..])
  }

  /** The chip of `page` is free to fill the page's buffer, and so will the other chip be
      when the manager comes to the next page and does not wait for it. */
  ghost predicate BuffersFree(df: Dataflash, job: Job, page: nat)
    reads df
  {
    && !Uses(df.chips[page % 2].activity, Which(job.Second(page)))
    && NextFree(df, job, page)
  }

  ghost predicate NextFree(df: Dataflash, job: Job, page: nat)
    reads df
  {
    job.FillsAtOnce(page + 1) ==> !Uses(df.chips[1 - page % 2].activity, Which(job.Second(page + 1)))
  }

  /** The manager's state between two chunks. */
  ghost predicate Writing(df: Dataflash, job: Job, page: nat, filled: nat)
    reads df
  {
    && job.Valid()
    && job.First() <= page < MEDIA_PAGES
    && filled <= PAGE_SIZE
    && page * PAGE_SIZE + filled <= job.End()
    && df.select == MaskOf(page % 2) && df.LinesQuiet()
    && FillingAt(df, job.Second(page), filled % PAGE_SIZE)
    && BuffersFree(df, job, page)
    && NoViolation(df)
    && Committed(df.View(0).memory, df.View(1).memory, job, page)
    && Filled(df.View(page % 2).Buf(Which(job.Second(page))), job, page, filled)
  }

  /** A buffer that is free stays free as time passes. */
  lemma StaysFree(before: Activity, after: Activity, b: Buffer)
    requires Calmer(before, after) && !Uses(before, b)
    ensures !Uses(after, b)
  {
  }

  /** The switch happens after the second chip's page, so a chip's consecutive pages, two
      apart, go through different buffers. */
  lemma BuffersAlternate(job: Job, page: nat)
    ensures job.Second(page + 1) == (job.Second(page) != (page % 2 == 1))
    ensures job.Second(page + 2) != job.Second(page)
  {
  }

  /** A full buffer holds the new page. */
  lemma FilledIsTarget(buffer: Page, job: Job, page: nat, filled: nat)
    requires job.Valid() && page < MEDIA_PAGES && job.First() <= page && filled <= PAGE_SIZE
    requires Filled(buffer, job, page, filled)
    requires filled == PAGE_SIZE || page * PAGE_SIZE + filled == job.End()
    ensures buffer == job.Target(page)
  {
    forall o | 0 <= o < PAGE_SIZE ensures buffer[o] == job.Target(page)[o] {
      if o < filled {
        assert buffer[..filled][o] == job.Target(page)[..filled][o];
      } else {
        assert buffer[filled..][o - filled] == job.before[page][filled..][o - filled];
      }
    }
  }

  /** What the other chip does meanwhile: it may still be doing what it was told last, and surely
      is if its transfers outlast the rest of the write. */
  ghost predicate Beside(df: Dataflash, job: Job, page: nat)
    reads df
  {
    page <= MEDIA_PAGES && StillDoes(job.Meanwhile(page), df.chips[1 - page % 2].activity, df.outlasting(1 - page % 2))
  }

  ghost predicate StillDoes(told: Activity, now: Activity, outlasting: bool) {
    Calmer(told, now) && (outlasting && !told.Idle? ==> !now.Idle?)
  }

  /** Work on the selected chip leaves the other one as it is. */
  lemma BesideKept(told: Activity, before: Activity, after: Activity, outlasting: bool)
    requires StillDoes(told, before, outlasting)
    requires Calmer(before, after) && (outlasting ==> after == before)
    ensures StillDoes(told, after, outlasting)
  {
  }

  /** Between two pages: the new page's chip is selected and listens. */
  ghost predicate Advanced(df: Dataflash, job: Job, page: nat)
    reads df
  {
    && job.Valid()
    && job.First() <= page < MEDIA_PAGES
    && page * PAGE_SIZE < job.End()
    && df.select == MaskOf(page % 2) && df.LinesQuiet()
    && Listening(df)
    && (job.FillsAtOnce(page) ==> !Uses(df.chips[page % 2].activity, Which(job.Second(page))))
    && NextFree(df, job, page)
    && NoViolation(df)
    && Committed(df.View(0).memory, df.View(1).memory, job, page)
  }

  /** Programs the full buffer into `page` and moves on to the next page's chip. */
  method NextPage(df: Dataflash, page: word, second: bool, ghost job: Job) returns (second': bool)
    requires Writing(df, job, page, PAGE_SIZE) && (page + 1) * PAGE_SIZE < job.End()
    requires second == job.Second(page)
    modifies df
    ensures Advanced(df, job, page + 1) && Beside(df, job, page + 1)
    ensures second' == job.Second(page + 1)
    ensures Calmer(Programming(Which(second), page / 2, 0), df.chips[page % 2].activity)
    ensures df.View(page % 2).buffer2 == old(df.View(page % 2)).buffer2 && df.Undisturbed(1 - page % 2)
  {
    ghost var s := page % 2;
    assert df.Current() == s;
    FilledIsTarget(df.View(s).Buf(Which(second)), job, page, PAGE_SIZE);
    CommitOne(df.View(0).memory, df.View(1).memory, job, page);
    BuffersAlternate(job, page);
    label Before:
    second' := CommitAndAdvance(df, second, page);
    StaysFree(Programming(Which(second), page / 2, 0), df.chips[s].activity, Which(job.Second(page + 2)));
    if job.FillsAtOnce(page + 1) {
      StaysFree(old@Before(df.chips[1 - s].activity), df.chips[1 - s].activity, Which(second'));
    }
  }

  lemma FilledAtStart(buffer: Page, job: Job, page: nat)
    requires page < |job.before|
    requires job.End() < (page + 1) * PAGE_SIZE ==> buffer == job.before[page]
    ensures Filled(buffer, job, page, 0)
  {
  }

  /** A page that the data does not fill to its end is always preloaded. */
  lemma TailIsPreloaded(blocks: nat, left: nat)
    requires blocks * VIRTUAL_MEMORY_BLOCK_SIZE == left < PAGE_SIZE
    ensures PreloadsTail(blocks)
  {
    assert blocks <= 1;
  }

  /** A page not programmed yet still has its old contents. */
  lemma OldPage(even: Memory, odd: Memory, job: Job, page: nat)
    requires |job.before| == MEDIA_PAGES && page < MEDIA_PAGES && Committed(even, odd, job, page)
    ensures PageOf(even, odd, page) == job.before[page]
  {
    assert Pages(even, odd)[page] == job.After(page)[page];
  }

  /** Starts filling the buffer of a new page, over the old page when the data ends in it. The
      16-bit test below also preloads, without harm, when 2048 blocks or a multiple remain. */
  method OpenPage(df: Dataflash, page: word, second: bool, totalBlocks: word, ghost job: Job)
    requires Advanced(df, job, page) && Beside(df, job, page) && second == job.Second(page)
    requires totalBlocks * VIRTUAL_MEMORY_BLOCK_SIZE == job.End() - page * PAGE_SIZE
    modifies df
    ensures Writing(df, job, page, 0) && Beside(df, job, page)
  {
    hide Settled;
    ghost var s := page % 2;
    assert df.Current() == s;
    OldPage(df.View(0).memory, df.View(1).memory, job, page);
    assert df.View(s).memory[page / 2] == job.before[page];
    var preload := PreloadsTail(totalBlocks);
    assert job.End() < (page + 1) * PAGE_SIZE ==> preload by {
      if job.End() < (page + 1) * PAGE_SIZE {
        TailIsPreloaded(totalBlocks, job.End() - page * PAGE_SIZE);
      }
    }
    OpenBuffer(df, second, page, preload);
    assert df.Current() == s && df.Undisturbed(1 - s);
    if s == 0 {
      assert df.View(0).memory == old(df.View(0)).memory && df.View(1) == old(df.View(1));
    } else {
      assert df.View(1).memory == old(df.View(1)).memory && df.View(0) == old(df.View(0));
    }
    FilledAtStart(df.View(s).Buf(Which(second)), job, page);
    if !preload {
      StaysFree(old(df.chips[s].activity), df.chips[s].activity, Which(second));
    }
    if job.FillsAtOnce(page + 1) {
      StaysFree(old(df.chips[1 - s].activity), df.chips[1 - s].activity, Which(job.Second(page + 1)));
    }
    BesideKept(job.Meanwhile(page), old(df.chips[1 - s].activity), df.chips[1 - s].activity, df.outlasting(1 - s));
  }

  method TurnPage(df: Dataflash, page: word, second: bool, totalBlocks: word, ghost job: Job) returns (second': bool)
    requires Writing(df, job, page, PAGE_SIZE) && (page + 1) * PAGE_SIZE < job.End()
    requires second == job.Second(page)
    requires totalBlocks * VIRTUAL_MEMORY_BLOCK_SIZE == job.End() - (page + 1) * PAGE_SIZE
    modifies df
    ensures Writing(df, job, page + 1, 0) && Beside(df, job, page + 1) && second' == job.Second(page + 1)
  {
    second' := NextPage(df, page, second, job);
    OpenPage(df, page + 1, second', totalBlocks, job);
  }

  /** `page` with `bytes` written over it from `offset` on. */
  function Spliced(page: Page, offset: nat, bytes: seq<byte>): Page
    requires offset + |bytes| <= PAGE_SIZE
  {
    page[..offset] + bytes + page[offset + |bytes|..]
  }

  /** Moves one byte from the endpoint into the buffer being filled. */
  method FillNext(df: Dataflash, ep: OutEndpoint, ghost c: nat, ghost second: bool, ghost offset: nat)
    requires c < TOTALCHIPS && df.select == MaskOf(c)
    requires FillingAt(df, second, offset) && offset < PAGE_SIZE && !Uses(df.chips[c].activity, Which(second))
    modifies df, ep`taken
    ensures df.select == MaskOf(c) && ep.taken == old(ep.taken) + 1
    ensures FillingAt(df, second, (offset + 1) % PAGE_SIZE)
    ensures df.View(c).Buf(Which(second)) == old(df.View(c)).Buf(Which(second))[offset := ep.stream(old(ep.taken))]
    ensures df.View(c).OnlyBufDiffers(Which(second), old(df.View(c)))
    ensures Calmer(old(df.chips[c].activity), df.chips[c].activity)
    ensures !Uses(df.chips[c].activity, Which(second))
    ensures df.Undisturbed(1 - c)
  {
    var b := ep.ReadByte();
    assert df.Current() == c;
    FillByte(df, second, offset, b);
    assert df.Current() == c;
  }

  /** Moves one 16-byte chunk from the endpoint into the buffer being filled. */
  method FillChunk(df: Dataflash, ep: OutEndpoint, ghost second: bool, ghost offset: nat)
    requires FillingAt(df, second, offset) && offset + CHUNK <= PAGE_SIZE
    requires !Uses(df.chips[df.Current()].activity, Which(second))
    modifies df, ep`taken
    ensures df.select == old(df.select) && ep.taken == old(ep.taken) + CHUNK
    ensures FillingAt(df, second, (offset + CHUNK) % PAGE_SIZE)
    ensures df.View(df.Current()).Buf(Which(second)) ==
            Spliced(old(df.View(df.Current())).Buf(Which(second)), offset, Received(ep.stream, old(ep.taken), CHUNK))
    ensures df.View(df.Current()).OnlyBufDiffers(Which(second), old(df.View(df.Current())))
    ensures Calmer(old(df.chips[df.Current()].activity), df.chips[df.Current()].activity)
    ensures df.Undisturbed(1 - df.Current())
  {
    hide Settled, Spliced, Received;
    ghost var c := df.Current();
    ghost var v := df.View(c);
    ghost var b := Which(second);
    ghost var from := ep.taken;
    SpliceNothing(v.Buf(b), offset);
    ReceivedNothing(ep.stream, from);
    var i := 0;
    while i < CHUNK
      invariant 0 <= i <= CHUNK
      invariant df.select == MaskOf(c) && ep.taken == from + i
      invariant FillingAt(df, second, if i < CHUNK then offset + i else (offset + CHUNK) % PAGE_SIZE)
      invariant df.View(c).Buf(b) == Spliced(v.Buf(b), offset, Received(ep.stream, from, i))
      invariant df.View(c).OnlyBufDiffers(b, v)
      invariant !Uses(df.chips[c].activity, b)
      invariant Calmer(old(df.chips[c].activity), df.chips[c].activity)
      invariant df.Undisturbed(1 - c)
    {
      ReceivedNext(ep.stream, from, i);
      SpliceNext(v.Buf(b), offset, Received(ep.stream, from, i), ep.stream(from + i));
      FillNext(df, ep, c, second, offset + i);
      i := i + 1;
      assert i < CHUNK ==> (offset + i) % PAGE_SIZE == offset + i;
    }
  }

  lemma ReceivedSlice(stream: nat -> byte, from: nat, total: nat, at: nat, count: nat)
    requires at + count <= total
    ensures Received(stream, from, total)[at..][..count] == Received(stream, from + at, count)
  {
  }

  lemma ReceivedNothing(stream: nat -> byte, from: nat)
    ensures Received(stream, from, 0) == []
  {
  }

  lemma ReceivedNext(stream: nat -> byte, from: nat, count: nat)
    ensures Received(stream, from, count + 1) == Received(stream, from, count) + [stream(from + count)]
  {
  }

  lemma SpliceNothing(page: Page, offset: nat)
    requires offset <= PAGE_SIZE
    ensures Spliced(page, offset, []) == page
  {
  }

  lemma SpliceNext(page: Page, offset: nat, bytes: seq<byte>, next: byte)
    requires offset + |bytes| < PAGE_SIZE
    ensures Spliced(page, offset, bytes)[offset + |bytes| := next] == Spliced(page, offset, bytes + [next])
  {
  }

  lemma SplicedIsFilled(buffer: Page, job: Job, page: nat, filled: nat, bytes: seq<byte>)
    requires job.Valid() && job.First() <= page < MEDIA_PAGES && filled + |bytes| <= PAGE_SIZE
    requires job.start <= page * PAGE_SIZE + filled && page * PAGE_SIZE + filled + |bytes| <= job.End()
    requires Filled(buffer, job, page, filled)
    requires bytes == job.data[page * PAGE_SIZE + filled - job.start..][..|bytes|]
    ensures Filled(Spliced(buffer, filled, bytes), job, page, filled + |bytes|)
  {
    var spliced := Spliced(buffer, filled, bytes);
    var target := job.Target(page);
    forall o | 0 <= o < filled + |bytes| ensures spliced[o] == target[o] {
      if o < filled {
        assert buffer[..filled][o] == target[..filled][o];
      }
    }
    if job.End() < (page + 1) * PAGE_SIZE {
      assert spliced[filled + |bytes|..] == buffer[filled..][|bytes|..];
      assert job.before[page][filled + |bytes|..] == job.before[page][filled..][|bytes|..];
    }
  }

  /** One chunk of the block being received. */
  method WriteChunk(df: Dataflash, ep: OutEndpoint, ghost page: nat, ghost filled: nat, ghost job: Job, ghost from: nat)
    requires Writing(df, job, page, filled) && Beside(df, job, page)
    requires filled + CHUNK <= PAGE_SIZE && page * PAGE_SIZE + filled + CHUNK <= job.End()
    requires job.start <= page * PAGE_SIZE + filled
    requires job.data == Received(ep.stream, from, |job.data|)
    requires ep.taken == from + (page * PAGE_SIZE + filled - job.start)
    modifies df, ep`taken
    ensures Writing(df, job, page, filled + CHUNK) && Beside(df, job, page)
    ensures ep.taken == old(ep.taken) + CHUNK
  {
    hide Settled, Received, Spliced, Filled, Committed;
    ghost var s := page % 2;
    assert df.Current() == s;
    ghost var bytes := Received(ep.stream, ep.taken, CHUNK);
    ReceivedSlice(ep.stream, from, |job.data|, ep.taken - from, CHUNK);
    SplicedIsFilled(df.View(s).Buf(Which(job.Second(page))), job, page, filled, bytes);
    FillChunk(df, ep, job.Second(page), filled);
    assert df.Current() == s;
    if s == 0 {
      assert df.View(0).memory == old(df.View(0)).memory && df.View(1) == old(df.View(1));
    } else {
      assert df.View(1).memory == old(df.View(1)).memory && df.View(0) == old(df.View(0));
    }
    StaysFree(old(df.chips[s].activity), df.chips[s].activity, Which(job.Second(page)));
    if job.FillsAtOnce(page + 1) {
      StaysFree(old(df.chips[1 - s].activity), df.chips[1 - s].activity, Which(job.Second(page + 1)));
    }
    BesideKept(job.Meanwhile(page), old(df.chips[1 - s].activity), df.chips[1 - s].activity, df.outlasting(1 - s));
  }

  /** No chip is busy or about to be. */
  ghost predicate Ready(df: Dataflash)
    reads df
  {
    AllIdle(df) && ReadyOnceIdle(df)
  }

  ghost predicate ReadyOnceIdle(df: Dataflash)
    reads df
  {
    && NoViolation(df) && df.LinesQuiet()
    && !Starts(df.chips[0].command) && !Starts(df.chips[1].command)
  }

  /** May chip `i` be busy with `a` when the write begins? Only if it does not hold the first page
      and, if it is to fill a buffer for the second page at once, works on the other buffer. */
  predicate Bearable(job: Job, i: nat, a: Activity) {
    || a.Idle?
    || (i != job.First() % 2 && (job.FillsAtOnce(job.First() + 1) ==> !Uses(a, Which(job.Second(job.First() + 1)))))
  }

  /** What a write expects of the hardware when it begins. */
  ghost predicate MayBegin(df: Dataflash, job: Job)
    reads df
  {
    && ReadyOnceIdle(df)
    && Bearable(job, 0, df.chips[0].activity) && Bearable(job, 1, df.chips[1].activity)
  }

  /** Selects the first page's chip and loads buffer 1 with the page's old contents. */
  method LoadFirstPage(df: Dataflash, page: word)
    requires ReadyOnceIdle(df) && page < MEDIA_PAGES && df.chips[page % 2].activity.Idle?
    modifies df
    ensures df.select == MaskOf(page % 2) && df.LinesQuiet() && Listening(df) && df.chips[page % 2].activity.Idle?
    ensures var v := old(df.View(page % 2));
      df.View(page % 2) == v.(buffer1 := v.memory[page / 2], command := NoCommand)
    ensures df.View(1 - page % 2) == old(df.View(1 - page % 2)).(command := NoCommand)
    ensures var i := 1 - page % 2;
      && Calmer(old(df.chips[i].activity), df.chips[i].activity)
      && (df.outlasting(i) ==> df.chips[i].activity == old(df.chips[i].activity))
  {
    CarriedPlain(df.View(0));
    CarriedPlain(df.View(1));
    df.SelectChipFromPage(page);
    assert df.Current() == page % 2;
    Preload(df, false, page);
    assert df.Current() == page % 2;
  }

  /** The first page as it is before any data: its head is what the page must end up with. */
  lemma FirstPageFilled(job: Job, even: Memory, odd: Memory)
    requires job.Valid() && job.before == Pages(even, odd)
    ensures job.First() < MEDIA_PAGES && Committed(even, odd, job, job.First())
    ensures Filled(PageOf(even, odd, job.First()), job, job.First(), job.start % PAGE_SIZE)
  {
    var page, filled := job.First(), job.start % PAGE_SIZE;
    assert job.After(page) == job.before;
    assert Pages(even, odd)[page] == PageOf(even, odd, page);
    assert job.start == page * PAGE_SIZE + filled;
    assert job.before[page][..filled] == job.Target(page)[..filled];
  }

  /** Selects the first page's chip and starts filling buffer 1 over the page's old contents. */
  method OpenFirstPage(df: Dataflash, page: word, pageByte: word, ghost job: Job)
    requires job.Valid() && MayBegin(df, job)
    requires job.before == Pages(df.View(0).memory, df.View(1).memory)
    requires page == job.First() && pageByte == job.start % PAGE_SIZE
    requires job.aside == df.chips[1 - page % 2].activity
    modifies df
    ensures Writing(df, job, page, pageByte) && Beside(df, job, page)
    ensures df.View(0).buffer2 == old(df.View(0)).buffer2
    ensures df.chips[page % 2].activity.Idle?
  {
    hide Settled, Committed, Filled;
    ghost var s, even, odd := page % 2, df.View(0).memory, df.View(1).memory;
    ghost var i := 1 - s;
    LoadFirstPage(df, page);
    assert df.Current() == s;
    label Loaded:
    StartFill(df, false, pageByte);
    assert df.Current() == s;
    BesideKept(job.aside, old@Loaded(df.chips[i].activity), df.chips[i].activity, df.outlasting(i));
    if job.FillsAtOnce(page + 1) {
      StaysFree(job.aside, df.chips[i].activity, Which(job.Second(page + 1)));
    }
    FirstIsWriting(df, page, pageByte, job, even, odd);
  }

  lemma FirstIsWriting(df: Dataflash, page: nat, filled: nat, job: Job, even: Memory, odd: Memory)
    requires job.Valid() && page == job.First() < MEDIA_PAGES && filled == job.start % PAGE_SIZE
    requires df.select == MaskOf(page % 2) && df.LinesQuiet() && FillingAt(df, false, filled)
    requires df.chips[page % 2].activity.Idle? && NextFree(df, job, page) && NoViolation(df)
    requires df.View(0).memory == even && df.View(1).memory == odd && job.before == Pages(even, odd)
    requires df.View(page % 2).buffer1 == PageOf(even, odd, page)
    ensures Writing(df, job, page, filled)
  {
    hide Settled, Committed, Filled;
    FirstPageFilled(job, even, odd);
  }

  /** Programs the last page and waits for it. */
  method CommitLast(df: Dataflash, page: word, second: bool, ghost job: Job, ghost filled: nat)
    requires Writing(df, job, page, filled) && Beside(df, job, page) && page * PAGE_SIZE + filled == job.End()
    requires second == job.Second(page)
    modifies df
    ensures NoViolation(df) && Beside(df, job, page)
    ensures Committed(df.View(0).memory, df.View(1).memory, job, page + 1)
    ensures df.select == MaskOf(page % 2) && df.LinesQuiet()
    ensures df.chips[page % 2].activity.Idle? && df.chips[page % 2].command == NoCommand
  {
    hide Settled, Committed, Filled, StillDoes, Calmer, Job.Target, Job.Second, Pages;
    ghost var s := page % 2;
    assert df.Current() == s;
    FilledIsTarget(df.View(s).Buf(Which(second)), job, page, filled);
    CommitOne(df.View(0).memory, df.View(1).memory, job, page);
    Commit(df, second, page);
    assert df.View(1 - s) == old(df.View(1 - s)) && df.View(s).memory[page / 2] == job.Target(page);
    BesideKept(job.Meanwhile(page), old(df.chips[1 - s].activity), df.chips[1 - s].activity, df.outlasting(1 - s));
  }

  /** A byte of the flat media once every page that `job` touches is done. */
  lemma CommittedAt(job: Job, page: nat, k: nat)
    requires job.Valid() && job.First() <= page <= MEDIA_PAGES && job.End() <= page * PAGE_SIZE && k < MEDIA_BYTES
    ensures Flat(job.After(page))[k] == if job.start <= k < job.End() then job.data[k - job.start] else Flat(job.before)[k]
  {
    var p, o := k / PAGE_SIZE, k % PAGE_SIZE;
    QuotientBelow(k, PAGE_SIZE, page);
    QuotientBelow(k, PAGE_SIZE, job.First());
    QuotientBelow(job.start, PAGE_SIZE, job.First());
    TargetAt(job, p, o, k);
  }

  lemma TargetAt(job: Job, p: nat, o: nat, k: nat)
    requires p < |job.before| && o < PAGE_SIZE && k == p * PAGE_SIZE + o
    ensures job.Target(p)[o] == if job.start <= k < job.End() then job.data[k - job.start] else job.before[p][o]
  {
  }

  /** Once every page that `job` touches is done, the flat media differs exactly in its range. */
  lemma AllCommitted(job: Job, page: nat)
    requires job.Valid() && job.First() <= page <= MEDIA_PAGES && job.End() <= page * PAGE_SIZE
    ensures Flat(job.After(page)) == Flat(job.before)[..job.start] + job.data + Flat(job.before)[job.End()..]
  {
    var now, was := Flat(job.After(page)), Flat(job.before);
    forall k | 0 <= k < |now| ensures now[k] == (was[..job.start] + job.data + was[job.End()..])[k] {
      CommittedAt(job, page, k);
    }
  }

  /** Time passing between two commands until both chips have finished. */
  method Elapse(df: Dataflash)
    modifies df
    ensures AllIdle(df) && df.select == old(df.select)
    ensures forall i | 0 <= i < TOTALCHIPS :: df.View(i) == old(df.View(i)) && df.chips[i].command == old(df.chips[i].command)
  {
    df.chips := [Settled(df.chips[0]), Settled(df.chips[1])];
  }

  /** How far the manager is: chunk `pageByteDiv16` of `page` is next, and the bytes before
      it came from the endpoint. */
  ghost predicate Received16(ep: OutEndpoint, job: Job, from: nat, page: nat, pageByteDiv16: nat)
    reads ep
  {
    && pageByteDiv16 <= PAGE_SIZE / 16 && (page > job.First() ==> pageByteDiv16 > 0)
    && job.data == Received(ep.stream, from, |job.data|)
    && job.start <= page * PAGE_SIZE + pageByteDiv16 * 16
    && ep.taken == from + (page * PAGE_SIZE + pageByteDiv16 * 16 - job.start)
  }

  /** Pages end only where blocks end. */
  lemma PageEndsBetweenBlocks(job: Job, page: nat, blocks: nat, inBlock: nat)
    requires job.Valid() && inBlock < VIRTUAL_MEMORY_BLOCK_SIZE / 16 && blocks > 0
    requires (page + 1) * PAGE_SIZE == job.End() - blocks * VIRTUAL_MEMORY_BLOCK_SIZE + inBlock * 16
    ensures inBlock == 0 && (page + 1) * PAGE_SIZE < job.End()
  {
    var first, length := job.start / VIRTUAL_MEMORY_BLOCK_SIZE, |job.data| / VIRTUAL_MEMORY_BLOCK_SIZE;
    assert job.start == first * VIRTUAL_MEMORY_BLOCK_SIZE && |job.data| == length * VIRTUAL_MEMORY_BLOCK_SIZE;
    var t := 2 * (page + 1) - first - length + blocks;
    assert inBlock * 16 == t * VIRTUAL_MEMORY_BLOCK_SIZE;
    assert t == 0;
  }

  /** The body of the inner loop: moves to the next page when this one is full, then takes
      one chunk. `blocks` blocks are still to be written, of which `inBlock` chunks are in. */
  method NextChunk(df: Dataflash, ep: OutEndpoint, page: word, pageByteDiv16: nat, second: bool, blocks: word,
                   ghost inBlock: nat, ghost job: Job, ghost from: nat)
    returns (page': word, pageByteDiv16': nat, second': bool)
    requires Received16(ep, job, from, page, pageByteDiv16)
    requires Writing(df, job, page, pageByteDiv16 * 16) && Beside(df, job, page) && second == job.Second(page)
    requires blocks > 0 && inBlock < VIRTUAL_MEMORY_BLOCK_SIZE / 16
    requires page * PAGE_SIZE + pageByteDiv16 * 16 == job.End() - blocks * VIRTUAL_MEMORY_BLOCK_SIZE + inBlock * 16
    modifies df, ep`taken
    ensures Received16(ep, job, from, page', pageByteDiv16')
    ensures Writing(df, job, page', pageByteDiv16' * 16) && Beside(df, job, page') && second' == job.Second(page')
    ensures page' * PAGE_SIZE + pageByteDiv16' * 16 == page * PAGE_SIZE + pageByteDiv16 * 16 + CHUNK
  {
    hide Settled;
    page', pageByteDiv16', second' := page, pageByteDiv16, second;
    if pageByteDiv16 == PAGE_SIZE / 16 {
      PageEndsBetweenBlocks(job, page, blocks, inBlock);
      second' := TurnPage(df, page, second, blocks, job);
      pageByteDiv16' := 0;
      page' := page + 1;
    }
    WriteChunk(df, ep, page', pageByteDiv16' * 16, job, from);
    pageByteDiv16' := pageByteDiv16' + 1;
  }

  /** One block of 32 chunks, unless the host fails or resets the interface. */
  method WriteBlock(df: Dataflash, ep: OutEndpoint, page: word, pageByteDiv16: nat, second: bool, blocks: word,
                    ghost job: Job, ghost from: nat)
    returns (ok: bool, page': word, pageByteDiv16': nat, second': bool)
    requires Received16(ep, job, from, page, pageByteDiv16)
    requires Writing(df, job, page, pageByteDiv16 * 16) && Beside(df, job, page) && second == job.Second(page)
    requires blocks > 0
    requires page * PAGE_SIZE + pageByteDiv16 * 16 == job.End() - blocks * VIRTUAL_MEMORY_BLOCK_SIZE
    modifies df, ep
    ensures Received16(ep, job, from, page', pageByteDiv16')
    ensures Writing(df, job, page', pageByteDiv16' * 16) && Beside(df, job, page') && second' == job.Second(page')
    ensures ok ==>
      page' * PAGE_SIZE + pageByteDiv16' * 16 == page * PAGE_SIZE + pageByteDiv16 * 16 + VIRTUAL_MEMORY_BLOCK_SIZE
    ensures ep.failures == old(ep.failures) + if ok then 0 else 1
  {
    hide Settled;
    ok, page', pageByteDiv16', second' := true, page, pageByteDiv16, second;
    var inBlockDiv16 := 0;
    while inBlockDiv16 < VIRTUAL_MEMORY_BLOCK_SIZE / 16
      invariant 0 <= inBlockDiv16 <= VIRTUAL_MEMORY_BLOCK_SIZE / 16
      invariant Received16(ep, job, from, page', pageByteDiv16')
      invariant Writing(df, job, page', pageByteDiv16' * 16) && Beside(df, job, page') && second' == job.Second(page')
      invariant page' * PAGE_SIZE + pageByteDiv16' * 16 == page * PAGE_SIZE + pageByteDiv16 * 16 + inBlockDiv16 * 16
      invariant ok && ep.failures == old(ep.failures)
    {
      var failed := ep.AwaitData();
      if failed {
        ok := false;
        return;
      }
      page', pageByteDiv16', second' :=
        NextChunk(df, ep, page', pageByteDiv16', second', blocks, inBlockDiv16, job, from);
      inBlockDiv16 := inBlockDiv16 + 1;
      var reset := ep.IsMassStoreReset();
      if reset {
        ok := false;
        return;
      }
    }
  }

  /** Receives all blocks of `job`; the last page touched is left in its buffer. */
  method ReceiveBlocks(df: Dataflash, ep: OutEndpoint, page: word, pageByteDiv16: nat, totalBlocks: word,
                       ghost job: Job, ghost from: nat)
    returns (ok: bool, page': word, ghost pageByteDiv16': nat, second: bool)
    requires Received16(ep, job, from, page, pageByteDiv16)
    requires Writing(df, job, page, pageByteDiv16 * 16) && Beside(df, job, page) && !job.Second(page)
    requires page * PAGE_SIZE + pageByteDiv16 * 16 == job.End() - totalBlocks * VIRTUAL_MEMORY_BLOCK_SIZE
    modifies df, ep
    ensures Received16(ep, job, from, page', pageByteDiv16')
    ensures Writing(df, job, page', pageByteDiv16' * 16) && Beside(df, job, page') && second == job.Second(page')
    ensures ok ==> page' * PAGE_SIZE + pageByteDiv16' * 16 == job.End()
    ensures ep.failures == old(ep.failures) + if ok then 0 else 1
  {
    var div16 := pageByteDiv16;
    ok, page', second := true, page, false;
    var blocks := totalBlocks;
    while blocks > 0
      invariant 0 <= blocks <= totalBlocks
      invariant Received16(ep, job, from, page', div16)
      invariant Writing(df, job, page', div16 * 16) && Beside(df, job, page') && second == job.Second(page')
      invariant page' * PAGE_SIZE + div16 * 16 == job.End() - blocks * VIRTUAL_MEMORY_BLOCK_SIZE
      invariant ok && ep.failures == old(ep.failures)
    {
      ok, page', div16, second := WriteBlock(df, ep, page', div16, second, blocks, job, from);
      if !ok {
        return false, page', div16, second;
      }
      blocks := blocks - 1;
    }
    pageByteDiv16' := div16;
  }

  /** Programs the last page, so that the media holds the whole write, and lets go of the chips. */
  method FinishWrite(df: Dataflash, ep: OutEndpoint, page: word, second: bool, ghost job: Job, ghost filled: nat)
    requires Writing(df, job, page, filled) && Beside(df, job, page) && page * PAGE_SIZE + filled == job.End()
    requires second == job.Second(page)
    modifies df
    ensures ReadyOnceIdle(df) && df.select == NO_CHIP
    ensures df.chips[page % 2].activity.Idle? && Beside(df, job, page)
    ensures Media(df) == Flat(job.before)[..job.start] + job.data + Flat(job.before)[job.End()..]
  {
    CommitLast(df, page, second, job, filled);
    AllCommitted(job, page + 1);
    ep.Finish();
    CarriedPlain(df.View(page % 2));
    df.DeselectChip();
  }

  /** Wherever the manager stops, no page is torn and the chips are left in good order. */
  lemma NothingTorn(df: Dataflash, ep: OutEndpoint, job: Job, from: nat, page: nat, pageByteDiv16: nat)
    requires Writing(df, job, page, pageByteDiv16 * 16) && Received16(ep, job, from, page, pageByteDiv16)
    ensures ReadyOnceIdle(df) && MediaPages(df) == job.After(page)
    ensures job.First() <= page < MEDIA_PAGES
    ensures page * PAGE_SIZE <= job.start + (ep.taken - from) <= (page + 1) * PAGE_SIZE
  {
  }

  /** After a completed write the last page's chip is idle; the other one may still be doing what it
      was told last, which is programming the page before, or what it did at the beginning. */
  ghost predicate LeftBehind(df: Dataflash, job: Job)
    reads df
  {
    df.chips[job.Last() % 2].activity.Idle? && Beside(df, job, job.Last())
  }

  /** So a write inside one page can be read back at once, if both chips were idle before. */
  lemma OnePageLeavesReady(df: Dataflash, job: Job)
    requires job.Valid() && LeftBehind(df, job) && ReadyOnceIdle(df) && job.aside.Idle?
    requires job.data == [] || job.End() <= (job.First() + 1) * PAGE_SIZE
    ensures Ready(df)
  {
    if job.data != [] {
      LastPageIs(job, job.First(), job.End() - job.First() * PAGE_SIZE);
    }
  }

  /** After a write of two or more pages a chip whose transfers outlast the end of the write is
      still programming the last page but one: nothing in the write waits for it. */
  lemma MorePagesMayLeaveBusy(df: Dataflash, job: Job)
    requires job.Valid() && LeftBehind(df, job) && job.End() > (job.First() + 1) * PAGE_SIZE
    requires df.outlasting(1 - job.Last() % 2)
    ensures ProgramsPage(df.chips[1 - job.Last() % 2].activity, job.Last() - 1) && !Ready(df)
  {
    assert job.Last() > job.First() by {
      QuotientBelow(job.End() - 1, PAGE_SIZE, job.First() + 1);
    }
  }

  predicate ProgramsPage(a: Activity, page: nat) {
    a.Programming? && a.page == page / 2
  }

  /** Another write may follow a completed one at once, however slow the chips are, exactly when it
      can bear what the first one told the other chip last. */
  lemma FollowsAtOnce(df: Dataflash, job: Job, next: Job)
    requires job.Valid() && LeftBehind(df, job) && ReadyOnceIdle(df)
    ensures Bearable(next, 1 - job.Last() % 2, job.Meanwhile(job.Last())) ==> MayBegin(df, next)
    ensures !Bearable(next, 1 - job.Last() % 2, job.Meanwhile(job.Last())) && df.outlasting(1 - job.Last() % 2) ==>
      !MayBegin(df, next)
  {
  }

  /** So a write that goes on where one of two or more pages ended, at the end of a page, may not
      follow at once: its first page is on the chip left busy. */
  lemma GoingOnMustWait(job: Job, next: Job)
    requires job.Valid() && next.Valid() && next.start == job.End()
    requires job.End() > (job.First() + 1) * PAGE_SIZE && job.End() % PAGE_SIZE == 0
    ensures next.First() == job.Last() + 1 && job.Last() > job.First()
    ensures !Bearable(next, 1 - job.Last() % 2, job.Meanwhile(job.Last()))
  {
    var page := job.End() / PAGE_SIZE - 1;
    assert job.End() == page * PAGE_SIZE + PAGE_SIZE;
    DivModUnique(job.End() - 1, PAGE_SIZE, page, PAGE_SIZE - 1);
    QuotientBelow(job.End() - 1, PAGE_SIZE, job.First() + 1);
  }

  /** Otherwise the write asks something of a busy chip that it does not allow: preloading the first
      page, or filling the buffer of the second page while the chip works on it. */
  lemma TooSoon(c: Chip, i: nat, job: Job, offset: nat, duration: nat, b: byte)
    requires i < TOTALCHIPS && job.Valid() && job.First() + 1 < MEDIA_PAGES && !Bearable(job, i, c.activity)
    ensures i == job.First() % 2 ==>
      Release(c.(command := Addressed(PreloadOp(false), job.First() / 2, 0)), duration).violated
    ensures i != job.First() % 2 ==>
      Clock(c.(command := Addressed(FillOp(job.Second(job.First() + 1)), 0, offset)), b).violated
  {
  }

  lemma LastPageIs(job: Job, page: nat, filled: nat)
    requires job.Valid() && job.First() <= page && filled <= PAGE_SIZE
    requires page * PAGE_SIZE + filled == job.End() && (page > job.First() ==> filled > 0)
    ensures page == job.Last()
  {
    if job.data != [] {
      var start := job.start;
      assert start == job.First() * PAGE_SIZE + start % PAGE_SIZE;
      DivModUnique(job.End() - 1, PAGE_SIZE, page, filled - 1);
    }
  }

  /** The outcome of a write that took the bytes from `from` on out of the endpoint. */
  ghost predicate Outcome(df: Dataflash, ep: OutEndpoint, job: Job, from: nat, completed: bool, stopPage: nat)
    requires job.Valid()
    reads df, ep
  {
    if completed then
      && ep.taken == from + |job.data|
      && df.select == NO_CHIP && LeftBehind(df, job)
      && Media(df) == Flat(job.before)[..job.start] + job.data + Flat(job.before)[job.End()..]
    else
      && job.First() <= stopPage < MEDIA_PAGES
      && stopPage * PAGE_SIZE <= job.start + (ep.taken - from) <= (stopPage + 1) * PAGE_SIZE
      && MediaPages(df) == job.After(stopPage)
  }

  /** Blocks start at a multiple of 16 bytes within their page. */
  lemma BlockStart(start: nat)
    requires start % VIRTUAL_MEMORY_BLOCK_SIZE == 0
    ensures start / PAGE_SIZE * PAGE_SIZE + start % PAGE_SIZE / 16 * 16 == start
  {
    var block := start / VIRTUAL_MEMORY_BLOCK_SIZE;
    var q, half := block / 2, block % 2;
    assert start == block * VIRTUAL_MEMORY_BLOCK_SIZE && block == 2 * q + half;
    DivModUnique(start, PAGE_SIZE, q, half * VIRTUAL_MEMORY_BLOCK_SIZE);
    DivModUnique(half * VIRTUAL_MEMORY_BLOCK_SIZE, 16, half * 32, 0);
  }

  /** Where a block of the media begins. */
  lemma BlockPlace(blockAddress: nat)
    requires blockAddress < MEDIA_BLOCKS
    ensures var start := blockAddress * VIRTUAL_MEMORY_BLOCK_SIZE;
      && start < MEDIA_BYTES && start % VIRTUAL_MEMORY_BLOCK_SIZE == 0 && start / PAGE_SIZE < MEDIA_PAGES
      && start / PAGE_SIZE * PAGE_SIZE + start % PAGE_SIZE / 16 * 16 == start
  {
    var start := blockAddress * VIRTUAL_MEMORY_BLOCK_SIZE;
    DivModUnique(start, VIRTUAL_MEMORY_BLOCK_SIZE, blockAddress, 0);
    QuotientBelow(start, PAGE_SIZE, MEDIA_PAGES);
    BlockStart(start);
  }

  method RunJob(df: Dataflash, ep: OutEndpoint, page: word, pageByte: word, totalBlocks: word, ghost job: Job)
    returns (completed: bool, ghost stopPage: nat)
    requires job.Valid() && MayBegin(df, job)
    requires job.before == MediaPages(df) && job.aside == df.chips[1 - page % 2].activity
    requires page == job.First() && pageByte == job.start % PAGE_SIZE
    requires job.data == Received(ep.stream, ep.taken, totalBlocks * VIRTUAL_MEMORY_BLOCK_SIZE)
    modifies df, ep
    ensures ReadyOnceIdle(df)
    ensures Outcome(df, ep, job, old(ep.taken), completed, stopPage)
    ensures ep.failures == old(ep.failures) + if completed then 0 else 1
  {
    hide Settled;
    ghost var from := ep.taken;
    BlockStart(job.start);
    OpenFirstPage(df, page, pageByte, job);
    completed, stopPage := false, page;
    NothingTorn(df, ep, job, from, page, pageByte / 16);
    var failed := ep.WaitUntilReady();
    if !failed {
      completed, stopPage := Transfer(df, ep, page, pageByte / 16, totalBlocks, job, from);
    }
  }

  /** All of a write but its beginning. */
  method Transfer(df: Dataflash, ep: OutEndpoint, page: word, pageByteDiv16: nat, totalBlocks: word,
                  ghost job: Job, ghost from: nat)
    returns (completed: bool, ghost stopPage: nat)
    requires Received16(ep, job, from, page, pageByteDiv16)
    requires Writing(df, job, page, pageByteDiv16 * 16) && Beside(df, job, page) && !job.Second(page)
    requires page * PAGE_SIZE + pageByteDiv16 * 16 == job.End() - totalBlocks * VIRTUAL_MEMORY_BLOCK_SIZE
    modifies df, ep
    ensures ReadyOnceIdle(df)
    ensures Outcome(df, ep, job, from, completed, stopPage)
    ensures ep.failures == old(ep.failures) + if completed then 0 else 1
  {
    hide Settled;
    var ok, last, div16, second := ReceiveBlocks(df, ep, page, pageByteDiv16, totalBlocks, job, from);
    completed, stopPage := ok, last;
    NothingTorn(df, ep, job, from, last, div16);
    if ok {
      LastPageIs(job, last, div16 * 16);
      FinishWrite(df, ep, last, second, job, div16 * 16);
    }
  }

  /** The write of `totalBlocks` OS blocks from the endpoint, beginning now, as a job. */
  ghost function WriteJob(df: Dataflash, ep: OutEndpoint, blockAddress: nat, totalBlocks: nat): (job: Job)
    requires blockAddress < MEDIA_BLOCKS && blockAddress + totalBlocks <= MEDIA_BLOCKS
    reads df, ep
    ensures job.Valid()
  {
    var start := blockAddress * VIRTUAL_MEMORY_BLOCK_SIZE;
    Job(MediaPages(df), start, Received(ep.stream, ep.taken, totalBlocks * VIRTUAL_MEMORY_BLOCK_SIZE),
        df.chips[1 - start / PAGE_SIZE % 2].activity)
  }

  /** Writes OS blocks from the endpoint to the media. `completed` tells whether the end was
      reached, which it is unless the host fails or resets the interface on the way; if not,
      `stopPage` is the page that was being assembled. */
  method WriteBlocks(df: Dataflash, ep: OutEndpoint, blockAddress: nat, totalBlocks: word)
    returns (completed: bool, ghost stopPage: nat)
    requires blockAddress < MEDIA_BLOCKS && blockAddress + totalBlocks <= MEDIA_BLOCKS
    requires MayBegin(df, WriteJob(df, ep, blockAddress, totalBlocks))
    modifies df, ep
    ensures ReadyOnceIdle(df)
    ensures ep.failures == old(ep.failures) + if completed then 0 else 1
    ensures completed ==>
      var start, count := blockAddress * VIRTUAL_MEMORY_BLOCK_SIZE, totalBlocks * VIRTUAL_MEMORY_BLOCK_SIZE;
      && ep.taken == old(ep.taken) + count
      && df.select == NO_CHIP
      && LeftBehind(df, old(WriteJob(df, ep, blockAddress, totalBlocks)))
      && Media(df) == old(Media(df))[..start] + Received(ep.stream, old(ep.taken), count) + old(Media(df))[start + count..]
    ensures !completed ==>
      var job := old(WriteJob(df, ep, blockAddress, totalBlocks));
      && job.First() <= stopPage < MEDIA_PAGES
      && stopPage * PAGE_SIZE <= job.start + (ep.taken - old(ep.taken)) <= (stopPage + 1) * PAGE_SIZE
      && MediaPages(df) == job.After(stopPage)
  {
    ghost var job := WriteJob(df, ep, blockAddress, totalBlocks);
    BlockPlace(blockAddress);
    var page := blockAddress * VIRTUAL_MEMORY_BLOCK_SIZE / PAGE_SIZE;
    var pageByte := blockAddress * VIRTUAL_MEMORY_BLOCK_SIZE % PAGE_SIZE;
    completed, stopPage := RunJob(df, ep, page, pageByte, totalBlocks, job);
  }
}
