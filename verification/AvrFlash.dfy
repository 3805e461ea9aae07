/** The self-programming flash of the AT90USB1287: word-addressed memory and one temporary page
    buffer. Erased bits are ones; programming a page can only clear bits. */
module AvrFlash {
  const SPM_PAGESIZE := 256
  const PAGE_WORDS := SPM_PAGESIZE / 2
  const FLASH_WORDS := 0x1_0000
  const BOOT_START_ADDR := 0x1_E000
  const BLANK: bv16 := 0xFFFF

  datatype Flash = Flash(words: seq<bv16>, temp: seq<bv16>)

  predicate Valid(f: Flash) {
    |f.words| == FLASH_WORDS && |f.temp| == PAGE_WORDS
  }

  /** The word at a byte address; address bits above the memory are not decoded. */
  function WordOf(address: nat): nat {
    address / 2 % FLASH_WORDS
  }

  function PageOfWord(w: nat): nat {
    w / PAGE_WORDS
  }

  /** boot_page_fill: puts a word into the temporary buffer. */
  function PageFill(f: Flash, address: nat, w: bv16): (g: Flash)
    requires Valid(f)
    ensures Valid(g)
  {
    f.(temp := f.temp[WordOf(address) % PAGE_WORDS := w])
  }

  /** Memory with one page, of `pageWords` words, set to all ones. */
  function ErasedPage(words: seq<bv16>, pageWords: nat, page: nat): (after: seq<bv16>)
    requires pageWords > 0
    ensures |after| == |words|
  {
    seq(|words|, w requires 0 <= w < |words| => if w / pageWords == page then BLANK else words[w])
  }

  /** Memory with a page programmed from a temporary buffer. */
  function WrittenPage(words: seq<bv16>, temp: seq<bv16>, pageWords: nat, page: nat): (after: seq<bv16>)
    requires pageWords > 0 && |temp| == pageWords
    ensures |after| == |words|
  {
    seq(|words|, w requires 0 <= w < |words| => if w / pageWords == page then words[w] & temp[w % pageWords] else words[w])
  }

  /** boot_page_erase: sets the page of an address to all ones. */
  function PageErase(f: Flash, address: nat): (g: Flash)
    requires Valid(f)
    ensures Valid(g)
  {
    f.(words := ErasedPage(f.words, PAGE_WORDS, PageOfWord(WordOf(address))))
  }

  /** boot_page_write: programs the temporary buffer into the page of an address and empties it. */
  function PageWrite(f: Flash, address: nat): (g: Flash)
    requires Valid(f)
    ensures Valid(g)
  {
    Flash(WrittenPage(f.words, f.temp, PAGE_WORDS, PageOfWord(WordOf(address))), BlankPage())
  }

  function Blanks(n: nat): (p: seq<bv16>)
    ensures |p| == n
  {
    seq(n, _ => BLANK)
  }

  function BlankPage(): (p: seq<bv16>)
    ensures |p| == PAGE_WORDS
  {
    Blanks(PAGE_WORDS)
  }

  /** boot_rww_enable: also empties the temporary buffer. */
  function RwwEnable(f: Flash): Flash {
    f.(temp := BlankPage())
  }

  predicate TempBlank(f: Flash) {
    f.temp == BlankPage()
  }

  predicate ApplicationBlank(f: Flash)
    requires Valid(f)
  {
    forall w | 0 <= w < BOOT_START_ADDR / 2 :: f.words[w] == BLANK
  }

  lemma BlankIsNeutral(w: bv16)
    ensures BLANK & w == w && w & BLANK == w
  {
  }
}
