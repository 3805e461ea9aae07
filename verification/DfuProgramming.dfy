/** Erasing, programming and reading flash as the DFU bootloader does it, for any start address. */
module DfuProgramming {
  import opened Bytes
  import opened AvrFlash

  // ---- programming a range -----------------------------------------------------------------

  /** The word written to slot `slot` of the `k`-th page touched by a download of `n` words from
      word `start` on: the loop counts a page's words from the start of the range, so a slot
      before the first word's slot is filled from the next page's share. */
  function SlotWord(start: nat, n: nat, words: nat -> bv16, k: nat, slot: nat): bv16
    requires slot < PAGE_WORDS
  {
    var j := k * PAGE_WORDS + Share(start, slot);
    if j < n then words(j) else BLANK
  }

  /** Memory once `pages` pages of a download have been programmed. */
  function Landed(before: seq<bv16>, start: nat, n: nat, words: nat -> bv16, pages: nat): (after: seq<bv16>)
    ensures |after| == |before|
  {
    seq(|before|, w requires 0 <= w < |before| =>
      if PageOfWord(start) <= PageOfWord(w) < PageOfWord(start) + pages
      then SlotWord(start, n, words, PageOfWord(w) - PageOfWord(start), w % PAGE_WORDS)
      else before[w])
  }

  /** The pages a download of `n` words touches. */
  function PagesTouched(n: nat): nat {
    (n + PAGE_WORDS - 1) / PAGE_WORDS
  }

  /** The whole download: a first page erased beforehand stays erased if nothing follows. */
  function Downloaded(before: seq<bv16>, start: nat, n: nat, words: nat -> bv16): seq<bv16> {
    Landed(before, start, n, words, PagesTouched(n))
  }

  /** Which of a page's words goes to a slot: the slots from the range's first one on come first. */
  function Share(start: nat, slot: nat): nat
    requires slot < PAGE_WORDS
  {
    var first := start % PAGE_WORDS;
    if slot >= first then slot - first else slot + PAGE_WORDS - first
  }

  /** The slot and page of a word that lies `c` pages and `inPage` words behind the start. */
  lemma Position(start: nat, c: nat, inPage: nat)
    requires inPage < PAGE_WORDS
    ensures PageOfWord(start + c * PAGE_WORDS) == PageOfWord(start) + c
    ensures Share(start, (start + (c * PAGE_WORDS + inPage)) % PAGE_WORDS) == inPage
  {
    var q, first := start / PAGE_WORDS, start % PAGE_WORDS;
    assert start == q * PAGE_WORDS + first;
    DivModUnique(start + c * PAGE_WORDS, PAGE_WORDS, q + c, first);
    var w := start + (c * PAGE_WORDS + inPage);
    if first + inPage < PAGE_WORDS {
      DivModUnique(w, PAGE_WORDS, q + c, first + inPage);
    } else {
      DivModUnique(w, PAGE_WORDS, q + c + 1, first + inPage - PAGE_WORDS);
    }
  }

  lemma ShareInjective(start: nat, slot1: nat, slot2: nat)
    requires slot1 < PAGE_WORDS && slot2 < PAGE_WORDS && Share(start, slot1) == Share(start, slot2)
    ensures slot1 == slot2
  {
  }

  /** The temporary buffer once `i` words were taken and `c` pages programmed. */
  function TempAfter(start: nat, words: nat -> bv16, c: nat, i: nat): (temp: seq<bv16>)
    ensures |temp| == PAGE_WORDS
  {
    seq(PAGE_WORDS, slot requires 0 <= slot < PAGE_WORDS =>
      var j := c * PAGE_WORDS + Share(start, slot); if j < i then words(j) else BLANK)
  }

  /** Memory with `c` pages programmed and the next one erased. */
  function NextErased(before: seq<bv16>, start: nat, n: nat, words: nat -> bv16, c: nat): (memory: seq<bv16>)
    ensures |memory| == |before|
  {
    seq(|before|, w requires 0 <= w < |before| =>
      if PageOfWord(w) == PageOfWord(start) + c then BLANK else Landed(before, start, n, words, c)[w])
  }

  /** The state of the programming loop: `c` pages are programmed, the next one is erased, and
      the words taken since are in the temporary buffer; `i` words were taken in all. */
  ghost predicate Filling(f: Flash, before: seq<bv16>, start: nat, n: nat, words: nat -> bv16, c: nat, i: nat) {
    && |before| == FLASH_WORDS
    && c * PAGE_WORDS <= i <= n && start + n <= FLASH_WORDS
    && f.words == NextErased(before, start, n, words, c)
    && f.temp == TempAfter(start, words, c, i)
  }

  lemma FillOne(f: Flash, before: seq<bv16>, start: nat, n: nat, words: nat -> bv16, c: nat, i: nat)
    requires Filling(f, before, start, n, words, c, i) && i < n && i < (c + 1) * PAGE_WORDS
    ensures Filling(PageFill(f, 2 * (start + i), words(i)), before, start, n, words, c, i + 1)
  {
    var inPage := i - c * PAGE_WORDS;
    Position(start, c, inPage);
    var here := (start + i) % PAGE_WORDS;
    assert WordOf(2 * (start + i)) == start + i;
    var temp := f.temp[here := words(i)];
    forall slot | 0 <= slot < PAGE_WORDS ensures temp[slot] == TempAfter(start, words, c, i + 1)[slot] {
      if Share(start, slot) == inPage {
        ShareInjective(start, slot, here);
      }
    }
  }

  /** When a page's share of words is complete, the temporary buffer holds what the page gets. */
  lemma ShareComplete(start: nat, n: nat, words: nat -> bv16, c: nat, i: nat, slot: nat)
    requires slot < PAGE_WORDS && c * PAGE_WORDS < i <= n
    requires i == (c + 1) * PAGE_WORDS || (i == n && n <= (c + 1) * PAGE_WORDS)
    ensures TempAfter(start, words, c, i)[slot] == SlotWord(start, n, words, c, slot)
  {
  }

  /** A page of words programmed into the page erased for it. */
  lemma PageLands(before: seq<bv16>, start: nat, n: nat, words: nat -> bv16, c: nat, temp: seq<bv16>)
    requires |before| == FLASH_WORDS && |temp| == PAGE_WORDS
    requires forall slot | 0 <= slot < PAGE_WORDS :: temp[slot] == SlotWord(start, n, words, c, slot)
    ensures WrittenPage(NextErased(before, start, n, words, c), temp, PAGE_WORDS, PageOfWord(start) + c)
      == Landed(before, start, n, words, c + 1)
  {
    hide SlotWord;
    var after := WrittenPage(NextErased(before, start, n, words, c), temp, PAGE_WORDS, PageOfWord(start) + c);
    forall w | 0 <= w < FLASH_WORDS ensures after[w] == Landed(before, start, n, words, c + 1)[w] {
      BlankIsNeutral(temp[w % PAGE_WORDS]);
    }
  }

  /** Programming the page whose share of words is complete. */
  lemma WriteOne(f: Flash, before: seq<bv16>, start: nat, n: nat, words: nat -> bv16, c: nat, i: nat)
    requires Filling(f, before, start, n, words, c, i) && c * PAGE_WORDS < i
    requires i == (c + 1) * PAGE_WORDS || (i == n && n <= (c + 1) * PAGE_WORDS)
    ensures PageWrite(f, 2 * (start + c * PAGE_WORDS)).words == Landed(before, start, n, words, c + 1)
    ensures TempBlank(PageWrite(f, 2 * (start + c * PAGE_WORDS)))
  {
    hide TempAfter, SlotWord, Landed, NextErased, WrittenPage;
    assert WordOf(2 * (start + c * PAGE_WORDS)) == start + c * PAGE_WORDS;
    Position(start, c, 0);
    forall slot | 0 <= slot < PAGE_WORDS ensures f.temp[slot] == SlotWord(start, n, words, c, slot) {
      ShareComplete(start, n, words, c, i, slot);
    }
    PageLands(before, start, n, words, c, f.temp);
  }

  /** Erasing the next page makes the loop's state good again. */
  lemma EraseNext(f: Flash, before: seq<bv16>, start: nat, n: nat, words: nat -> bv16, c: nat)
    requires Valid(f) && TempBlank(f) && |before| == FLASH_WORDS
    requires f.words == Landed(before, start, n, words, c) && c * PAGE_WORDS < n && start + n <= FLASH_WORDS
    ensures Filling(PageErase(f, 2 * (start + c * PAGE_WORDS)), before, start, n, words, c, c * PAGE_WORDS)
  {
    assert WordOf(2 * (start + c * PAGE_WORDS)) == start + c * PAGE_WORDS;
    Position(start, c, 0);
    var g := PageErase(f, 2 * (start + c * PAGE_WORDS));
    assert g.words == NextErased(before, start, n, words, c);
    assert g.temp == TempAfter(start, words, c, c * PAGE_WORDS);
  }

  /** What a download needs: an empty temporary buffer, a range inside the flash and, as the
      programming command sees to, an erased first page. */
  ghost predicate Prepared(flash: Flash, start: nat, n: nat) {
    && Valid(flash) && TempBlank(flash) && start + n <= FLASH_WORDS && start < FLASH_WORDS
    && flash.words == PageErase(flash, 2 * start).words
  }

  lemma FirstPageReady(f: Flash, start: nat, n: nat, words: nat -> bv16)
    requires Prepared(f, start, n)
    ensures Filling(f, f.words, start, n, words, 0, 0)
    ensures Landed(f.words, start, n, words, 0) == f.words
  {
    assert WordOf(2 * start) == start;
    assert Landed(f.words, start, n, words, 0) == f.words;
    assert f.words == NextErased(f.words, start, n, words, 0);
    assert f.temp == TempAfter(start, words, 0, 0);
  }

  lemma LastPage(n: nat, c: nat)
    requires c * PAGE_WORDS < n <= (c + 1) * PAGE_WORDS
    ensures PagesTouched(n) == c + 1
  {
    DivModUnique(n + PAGE_WORDS - 1, PAGE_WORDS, c + 1, n - 1 - c * PAGE_WORDS);
  }

  /** Commits the page that words `from` to `i - 1` went to and, if words remain, erases the
      next one. */
  function Committed(f: Flash, start: nat, n: nat, from: nat, i: nat): (g: Flash)
    requires Valid(f)
    ensures Valid(g)
  {
    var written := PageWrite(f, 2 * (start + from));
    if i < n then PageErase(written, 2 * (start + i)) else written
  }

  /** The programming loop as a function: word `i` is next and the page to be committed began
      with word `from` of the range. */
  function Programmed(f: Flash, start: nat, n: nat, words: nat -> bv16, from: nat, i: nat): (g: Flash)
    requires Valid(f)
    ensures Valid(g)
    decreases n - i
  {
    if i >= n then f
    else
      var filled := PageFill(f, 2 * (start + i), words(i));
      if i + 1 == from + PAGE_WORDS || i + 1 == n
      then Programmed(Committed(filled, start, n, from, i + 1), start, n, words, i + 1, i + 1)
      else Programmed(filled, start, n, words, from, i + 1)
  }

  lemma CommitKeepsFilling(f: Flash, before: seq<bv16>, start: nat, n: nat, words: nat -> bv16, c: nat, i: nat)
    requires Valid(f) && Filling(f, before, start, n, words, c, i) && c * PAGE_WORDS < i
    requires i == (c + 1) * PAGE_WORDS || (i == n && n <= (c + 1) * PAGE_WORDS)
    ensures i < n ==> Filling(Committed(f, start, n, c * PAGE_WORDS, i), before, start, n, words, c + 1, i)
    ensures i == n ==> Committed(f, start, n, c * PAGE_WORDS, i).words == Downloaded(before, start, n, words)
  {
    WriteOne(f, before, start, n, words, c, i);
    if i < n {
      EraseNext(PageWrite(f, 2 * (start + c * PAGE_WORDS)), before, start, n, words, c + 1);
    } else {
      LastPage(n, c);
    }
  }

  /** From a good state of the loop the range ends up as the closed form says. */
  lemma {:induction false} LoopDownloads(f: Flash, before: seq<bv16>, start: nat, n: nat, words: nat -> bv16, c: nat, i: nat)
    requires Valid(f) && Filling(f, before, start, n, words, c, i) && i < n && i < (c + 1) * PAGE_WORDS
    ensures Programmed(f, start, n, words, c * PAGE_WORDS, i).words == Downloaded(before, start, n, words)
    decreases n - i
  {
    hide PageFill, Committed, Downloaded, TempAfter, NextErased;
    var filled := PageFill(f, 2 * (start + i), words(i));
    FillOne(f, before, start, n, words, c, i);
    if i + 1 == (c + 1) * PAGE_WORDS || i + 1 == n {
      CommitKeepsFilling(filled, before, start, n, words, c, i + 1);
      if i + 1 < n {
        assert i + 1 == (c + 1) * PAGE_WORDS < (c + 2) * PAGE_WORDS;
        LoopDownloads(Committed(filled, start, n, c * PAGE_WORDS, i + 1), before, start, n, words, c + 1, i + 1);
      }
    } else {
      LoopDownloads(filled, before, start, n, words, c, i + 1);
    }
  }

  /** The whole programming loop, when the flash is prepared for it. */
  lemma ProgrammedIsDownloaded(f: Flash, start: nat, n: nat, words: nat -> bv16)
    requires Prepared(f, start, n)
    ensures Programmed(f, start, n, words, 0, 0).words == Downloaded(f.words, start, n, words)
  {
    FirstPageReady(f, start, n, words);
    if n == 0 {
      assert PagesTouched(n) == 0;
    } else {
      LoopDownloads(f, f.words, start, n, words, 0, 0);
    }
  }

  /** The download loop over `wordCount` words of the host's stream. */
  method ProgramWords(flash: Flash, address: nat, wordCount: nat, words: nat -> bv16) returns (f: Flash)
    requires Valid(flash)
    ensures f == RwwEnable(Programmed(flash, address / 2, wordCount, words, 0, 0)) && Valid(f)
    ensures Prepared(flash, address / 2, wordCount) ==>
      f.words == Downloaded(flash.words, address / 2, wordCount, words)
  {
    hide PageFill, PageWrite, PageErase, Downloaded, Prepared;
    ghost var start, from := address / 2, 0;
    f := flash;
    var wordsRemaining, taken := wordCount, 0;
    var currAddress, pageStart, wordsInPage := address / 2 * 2, address / 2 * 2, 0;
    while wordsRemaining > 0
      invariant Valid(f)
      invariant taken == wordCount - wordsRemaining <= wordCount
      invariant currAddress == 2 * (start + taken) && pageStart == 2 * (start + from)
      invariant wordsRemaining > 0 ==> taken == from + wordsInPage && 0 <= wordsInPage < PAGE_WORDS
      invariant Programmed(f, start, wordCount, words, from, taken) == Programmed(flash, start, wordCount, words, 0, 0)
    {
      wordsRemaining := wordsRemaining - 1;
      f := PageFill(f, currAddress, words(taken));
      taken := taken + 1;
      wordsInPage := wordsInPage + 1;
      currAddress := currAddress + 2;
      if wordsInPage == SPM_PAGESIZE / 2 || wordsRemaining == 0 {
        f := PageWrite(f, pageStart);
        if wordsRemaining > 0 {
          from := taken;
          pageStart := currAddress;
          wordsInPage := 0;
          f := PageErase(f, currAddress);
        }
      }
    }
    f := RwwEnable(f);
    if Prepared(flash, start, wordCount) {
      ProgrammedIsDownloaded(flash, start, wordCount, words);
    }
  }

  // ---- reading a range ------------------------------------------------------------------------

  /** `count` words of memory from a word on; addresses wrap at the end of the memory. */
  function WordsAt(memory: seq<bv16>, start: nat, count: nat): (s: seq<bv16>)
    requires |memory| == FLASH_WORDS
    ensures |s| == count
  {
    seq(count, j requires 0 <= j < count => memory[(start + j) % FLASH_WORDS])
  }

  method ReadWords(flash: Flash, address: nat, wordCount: nat) returns (s: seq<bv16>)
    requires Valid(flash)
    ensures s == WordsAt(flash.words, address / 2, wordCount)
  {
    s := [];
    var wordsRemaining, currAddress := wordCount, address;
    while wordsRemaining > 0
      invariant |s| == wordCount - wordsRemaining <= wordCount
      invariant currAddress == address + 2 * |s|
      invariant s == WordsAt(flash.words, address / 2, |s|)
    {
      wordsRemaining := wordsRemaining - 1;
      assert WordOf(currAddress) == (address / 2 + |s|) % FLASH_WORDS;
      s := s + [flash.words[WordOf(currAddress)]];
      currAddress := currAddress + 2;
    }
  }

  /** Reading back a range that a download put in place gives the words downloaded. */
  lemma DownloadThenRead(before: seq<bv16>, start: nat, n: nat, words: nat -> bv16)
    requires |before| == FLASH_WORDS && start + n <= FLASH_WORDS && RangeFits(start, n)
    ensures WordsAt(Downloaded(before, start, n, words), start, n) == seq(n, j requires 0 <= j => words(j))
  {
    RightWhenItFits(before, start, n, words);
    var after := Downloaded(before, start, n, words);
    forall j | 0 <= j < n ensures WordsAt(after, start, n)[j] == words(j) {
      assert after[start + j] == words(j);
    }
  }

  // ---- erasing the application section, for any page size and boot section start --------------

  /** Memory once the first `pages` pages were erased and written with the temporary buffer. */
  function ErasedUpTo(words: seq<bv16>, temp: seq<bv16>, pageWords: nat, pages: nat): (after: seq<bv16>)
    requires pageWords > 0 && |temp| == pageWords
    ensures |after| == |words|
  {
    seq(|words|, w requires 0 <= w < |words| =>
      if w / pageWords >= pages then words[w] else if w / pageWords == 0 then temp[w % pageWords] else BLANK)
  }

  /** How many pages begin below an address. */
  function PagesBelow(address: nat, pageSize: nat): nat
    requires pageSize > 0
  {
    (address + pageSize - 1) / pageSize
  }

  lemma EraseOnePage(words: seq<bv16>, temp: seq<bv16>, pageWords: nat, pages: nat)
    requires pageWords > 0 && |temp| == pageWords
    ensures var now := ErasedUpTo(words, temp, pageWords, pages);
      WrittenPage(ErasedPage(now, pageWords, pages), if pages == 0 then temp else Blanks(pageWords), pageWords, pages)
        == ErasedUpTo(words, temp, pageWords, pages + 1)
  {
    var now := ErasedUpTo(words, temp, pageWords, pages);
    var buffer := if pages == 0 then temp else Blanks(pageWords);
    var after := WrittenPage(ErasedPage(now, pageWords, pages), buffer, pageWords, pages);
    forall w | 0 <= w < |words| ensures after[w] == ErasedUpTo(words, temp, pageWords, pages + 1)[w] {
      BlankIsNeutral(buffer[w % pageWords]);
    }
  }

  lemma PageStart(pages: nat, pageSize: nat, bootStart: nat)
    requires pageSize > 0
    ensures pages * pageSize / pageSize == pages
    ensures pages * pageSize < bootStart <==> pages < PagesBelow(bootStart, pageSize)
  {
    DivModUnique(pages * pageSize, pageSize, pages, 0);
    var n := PagesBelow(bootStart, pageSize);
    assert bootStart + pageSize - 1 == n * pageSize + (bootStart + pageSize - 1) % pageSize;
    MultipleBound(n - pages, pageSize);
    MultipleBound(pages - n, pageSize);
    assert (n - pages) * pageSize == n * pageSize - pages * pageSize;
    assert (pages - n) * pageSize == pages * pageSize - n * pageSize;
  }

  /** The erase loop: what the temporary buffer held ends up in the first page, the rest of the
      application section is blank, and pages from the boot section start on are left alone. */
  method ErasePages(words: seq<bv16>, temp: seq<bv16>, pageSize: nat, bootStart: nat) returns (after: seq<bv16>)
    requires pageSize > 0 && pageSize % 2 == 0 && |temp| == pageSize / 2
    ensures after == ErasedUpTo(words, temp, pageSize / 2, PagesBelow(bootStart, pageSize))
  {
    after := words;
    var buffer, currFlashAddress := temp, 0;
    ghost var pages := 0;
    assert words == ErasedUpTo(words, temp, pageSize / 2, 0);
    PageStart(0, pageSize, bootStart);
    while currFlashAddress < bootStart
      invariant currFlashAddress == pages * pageSize && pages <= PagesBelow(bootStart, pageSize)
      invariant after == ErasedUpTo(words, temp, pageSize / 2, pages)
      invariant buffer == if pages == 0 then temp else Blanks(pageSize / 2)
      decreases bootStart - currFlashAddress
    {
      PageStart(pages, pageSize, bootStart);
      EraseOnePage(words, temp, pageSize / 2, pages);
      after := ErasedPage(after, pageSize / 2, currFlashAddress / pageSize);
      after := WrittenPage(after, buffer, pageSize / 2, currFlashAddress / pageSize);
      buffer := Blanks(pageSize / 2);
      currFlashAddress := currFlashAddress + pageSize;
      pages := pages + 1;
      assert (pages - 1) * pageSize + pageSize == pages * pageSize;
    }
    PageStart(pages, pageSize, bootStart);
  }

  /** With an empty temporary buffer, and for every page size and boot section start, each word
      of a page that begins in the application section is blank afterwards and no other word has
      changed. */
  lemma EraseClearsAll(words: seq<bv16>, pageSize: nat, bootStart: nat, w: nat)
    requires pageSize > 0 && pageSize % 2 == 0 && w < |words|
    ensures ErasedUpTo(words, Blanks(pageSize / 2), pageSize / 2, PagesBelow(bootStart, pageSize))[w] ==
      if w / (pageSize / 2) * pageSize < bootStart then BLANK else words[w]
  {
    PageStart(w / (pageSize / 2), pageSize, bootStart);
  }

  /** The flash of the configured build after the erase loop. */
  function ErasedApplication(f: Flash): (g: Flash)
    requires Valid(f)
    ensures Valid(g)
  {
    Flash(ErasedUpTo(f.words, f.temp, PAGE_WORDS, PagesBelow(BOOT_START_ADDR, SPM_PAGESIZE)), BlankPage())
  }

  lemma PageOfAddress(address: nat)
    requires address < 2 * FLASH_WORDS
    ensures PageOfWord(WordOf(address)) == address / SPM_PAGESIZE
  {
    var page, within := address / SPM_PAGESIZE, address % SPM_PAGESIZE;
    DivModUnique(address, 2, PAGE_WORDS * page + within / 2, within % 2);
    DivModUnique(address / 2, PAGE_WORDS, page, within / 2);
  }

  /** The page that an address of this build selects is the one the loop means. */
  lemma EraseAddress(f: Flash, address: nat)
    requires Valid(f) && address < 2 * FLASH_WORDS
    ensures PageErase(f, address).words == ErasedPage(f.words, PAGE_WORDS, address / SPM_PAGESIZE)
    ensures PageWrite(f, address).words == WrittenPage(f.words, f.temp, PAGE_WORDS, address / SPM_PAGESIZE)
  {
    PageOfAddress(address);
  }

  /** The flash once the first `pages` pages of the configured build were erased and written. */
  function ErasedPages(f: Flash, pages: nat): (g: Flash)
    requires Valid(f)
    ensures Valid(g)
  {
    Flash(ErasedUpTo(f.words, f.temp, PAGE_WORDS, pages), if pages == 0 then f.temp else BlankPage())
  }

  lemma EraseNextPage(f: Flash, pages: nat)
    requires Valid(f) && pages * SPM_PAGESIZE < 2 * FLASH_WORDS
    ensures PageWrite(PageErase(ErasedPages(f, pages), pages * SPM_PAGESIZE), pages * SPM_PAGESIZE) == ErasedPages(f, pages + 1)
  {
    var now, address := ErasedPages(f, pages), pages * SPM_PAGESIZE;
    DivModUnique(address, SPM_PAGESIZE, pages, 0);
    EraseOnePage(f.words, f.temp, PAGE_WORDS, pages);
    EraseAddress(now, address);
    EraseAddress(PageErase(now, address), address);
  }

  /** The erase loop of the configured build, page erase by page erase and page write by page
      write. */
  method EraseApplication(flash: Flash) returns (f: Flash)
    requires Valid(flash)
    ensures f == ErasedApplication(flash)
  {
    hide PageErase, PageWrite, ErasedUpTo;
    f := flash;
    var currFlashAddress := 0;
    ghost var pages := 0;
    NothingErased(flash);
    while currFlashAddress < BOOT_START_ADDR
      invariant currFlashAddress == pages * SPM_PAGESIZE && pages <= PagesBelow(BOOT_START_ADDR, SPM_PAGESIZE)
      invariant f == ErasedPages(flash, pages)
      decreases BOOT_START_ADDR - currFlashAddress
    {
      EraseNextPage(flash, pages);
      f := PageErase(f, currFlashAddress);
      f := PageWrite(f, currFlashAddress);
      currFlashAddress := currFlashAddress + SPM_PAGESIZE;
      pages := pages + 1;
    }
    f := RwwEnable(f);
  }

  lemma NothingErased(f: Flash)
    requires Valid(f)
    ensures ErasedPages(f, 0) == f
  {
    assert ErasedUpTo(f.words, f.temp, PAGE_WORDS, 0) == f.words;
  }

  lemma BootPage(w: nat)
    ensures w / PAGE_WORDS * SPM_PAGESIZE < BOOT_START_ADDR <==> w < BOOT_START_ADDR / 2
  {
    QuotientBelow(w, PAGE_WORDS, BOOT_START_ADDR / SPM_PAGESIZE);
  }

  /** With an empty temporary buffer the whole application section is blank afterwards and the
      boot section is as before. */
  lemma EraseLeavesBlank(f: Flash)
    requires Valid(f) && TempBlank(f)
    ensures ApplicationBlank(ErasedApplication(f))
    ensures forall w | BOOT_START_ADDR / 2 <= w < FLASH_WORDS :: ErasedApplication(f).words[w] == f.words[w]
  {
    forall w | 0 <= w < FLASH_WORDS
      ensures ErasedApplication(f).words[w] == if w < BOOT_START_ADDR / 2 then BLANK else f.words[w]
    {
      EraseClearsAll(f.words, SPM_PAGESIZE, BOOT_START_ADDR, w);
      BootPage(w);
    }
  }

  // ---- when a download is right --------------------------------------------------------------

  /** The range holds exactly the words received. */
  predicate RangeHolds(memory: seq<bv16>, start: nat, n: nat, words: nat -> bv16)
    requires start + n <= |memory|
  {
    forall j | 0 <= j < n :: memory[start + j] == words(j)
  }

  /** The range starts on a page or does not leave its first page. */
  predicate RangeFits(start: nat, n: nat) {
    start % PAGE_WORDS == 0 || start % PAGE_WORDS + n <= PAGE_WORDS
  }

  lemma NoCarry(start: nat, n: nat, j: nat)
    requires j < n && RangeFits(start, n)
    ensures start % PAGE_WORDS + j % PAGE_WORDS < PAGE_WORDS
  {
  }

  lemma WordPosition(start: nat, j: nat)
    requires start % PAGE_WORDS + j % PAGE_WORDS < PAGE_WORDS
    ensures PageOfWord(start + j) == PageOfWord(start) + j / PAGE_WORDS
    ensures (start + j) % PAGE_WORDS == start % PAGE_WORDS + j % PAGE_WORDS
  {
    assert start == start / PAGE_WORDS * PAGE_WORDS + start % PAGE_WORDS;
    assert j == j / PAGE_WORDS * PAGE_WORDS + j % PAGE_WORDS;
    DivModUnique(start + j, PAGE_WORDS, start / PAGE_WORDS + j / PAGE_WORDS, start % PAGE_WORDS + j % PAGE_WORDS);
  }

  lemma WordLands(before: seq<bv16>, start: nat, n: nat, words: nat -> bv16, j: nat)
    requires start + n <= |before| && j < n && RangeFits(start, n)
    ensures Downloaded(before, start, n, words)[start + j] == words(j)
  {
    NoCarry(start, n, j);
    WordPosition(start, j);
    QuotientMonotone(j, n);
    var k := j / PAGE_WORDS;
    assert Share(start, (start + j) % PAGE_WORDS) == j % PAGE_WORDS;
    assert k * PAGE_WORDS + j % PAGE_WORDS == j;
  }

  lemma RightWhenItFits(before: seq<bv16>, start: nat, n: nat, words: nat -> bv16)
    requires start + n <= |before| && RangeFits(start, n)
    ensures RangeHolds(Downloaded(before, start, n, words), start, n, words)
  {
    forall j | 0 <= j < n ensures Downloaded(before, start, n, words)[start + j] == words(j) {
      WordLands(before, start, n, words, j);
    }
  }

  lemma QuotientMonotone(j: nat, n: nat)
    requires j < n
    ensures j / PAGE_WORDS < PagesTouched(n)
  {
  }

  /** The word that is misplaced when the range crosses a page boundary elsewhere than at its
      own pages: it lands at the beginning of the first page. */
  lemma WrongOtherwise(before: seq<bv16>, start: nat, n: nat) returns (words: nat -> bv16)
    requires start + n <= |before| && !RangeFits(start, n)
    ensures start + n <= |Downloaded(before, start, n, words)|
    ensures !RangeHolds(Downloaded(before, start, n, words), start, n, words)
  {
    var j := PAGE_WORDS - start % PAGE_WORDS;
    DivModUnique(start + j, PAGE_WORDS, start / PAGE_WORDS + 1, 0);
    assert 0 <= j < n;
    if PagesTouched(n) <= 1 {
      var other: bv16 := if before[start + j] == 0 then 1 else 0;
      words := _ => other;
      assert Downloaded(before, start, n, words)[start + j] == before[start + j] != words(j);
    } else {
      words := i => if i == j then 1 else 0;
      assert Share(start, 0) == j && words(PAGE_WORDS + j) == 0;
      assert Downloaded(before, start, n, words)[start + j] == SlotWord(start, n, words, 1, 0) != words(j);
    }
  }

  /** A download puts every stream of words where it belongs exactly when the range starts on a
      page or stays inside one. */
  lemma DownloadRightExactly(before: seq<bv16>, start: nat, n: nat)
    requires start + n <= |before|
    ensures (forall words: nat -> bv16 :: RangeHolds(Downloaded(before, start, n, words), start, n, words))
       <==> RangeFits(start, n)
  {
    if RangeFits(start, n) {
      forall words: nat -> bv16
        ensures RangeHolds(Downloaded(before, start, n, words), start, n, words)
      {
        RightWhenItFits(before, start, n, words);
      }
    } else {
      var words := WrongOtherwise(before, start, n);
    }
  }

  lemma OnePageTouched(n: nat)
    requires n <= PAGE_WORDS
    ensures PagesTouched(n) <= 1
  {
  }

  /** The same in quotients and remainders: word `slot` of the `k`-th page of a range of `n` words
      that begins with word `first` of a page. */
  lemma PartsBeyond(first: nat, slot: nat, k: nat, n: nat)
    requires first < PAGE_WORDS && slot < PAGE_WORDS && k < PagesTouched(n)
    requires first == 0 || first + n <= PAGE_WORDS
    requires !(first <= k * PAGE_WORDS + slot < first + n)
    ensures k * PAGE_WORDS + (if slot >= first then slot - first else slot + PAGE_WORDS - first) >= n
  {
    if first != 0 {
      OnePageTouched(n);
    }
  }

  /** A word on a touched page outside the range is in a slot beyond the words downloaded. */
  lemma SlotBeyond(start: nat, n: nat, w: nat, k: nat)
    requires RangeFits(start, n) && !(start <= w < start + n) && k < PagesTouched(n)
    requires PageOfWord(w) == PageOfWord(start) + k
    ensures k * PAGE_WORDS + Share(start, w % PAGE_WORDS) >= n
  {
    assert w - start == k * PAGE_WORDS + w % PAGE_WORDS - start % PAGE_WORDS;
    PartsBeyond(start % PAGE_WORDS, w % PAGE_WORDS, k, n);
  }

  /** Outside the range: the rest of the touched pages reads as erased, other pages are as before. */
  lemma DownloadFrame(before: seq<bv16>, start: nat, n: nat, words: nat -> bv16, w: nat)
    requires start + n <= |before| && w < |before| && RangeFits(start, n) && !(start <= w < start + n)
    ensures Downloaded(before, start, n, words)[w] ==
      if PageOfWord(start) <= PageOfWord(w) < PageOfWord(start) + PagesTouched(n) then BLANK else before[w]
  {
    var k := PageOfWord(w) - PageOfWord(start);
    if 0 <= k < PagesTouched(n) {
      SlotBeyond(start, n, w, k);
    }
  }
}
