/** The chip erase command of the CDC bootloader, for any page size and boot section start. */
module CdcErase {
  import opened Bytes

  type Page = seq<byte>

  function BlankPage(size: nat): Page {
    seq(size, _ => 0xFF)
  }

  /** Is page `p` one of the pages whose addresses the loop visits? */
  predicate Visited(p: nat, pageSize: nat) {
    p % (pageSize + 1) != pageSize
  }

  /** Flash pages below `limit` erased, except the ones the loop steps over. */
  function Erased(pages: seq<Page>, pageSize: nat, limit: nat): (after: seq<Page>)
    ensures |after| == |pages|
  {
    seq(|pages|, p requires 0 <= p < |pages| =>
      if p < limit && Visited(p, pageSize) then BlankPage(pageSize) else pages[p])
  }

  /** The page that holds the loop's address: `a` full rounds and `r` further pages. */
  lemma AddressPage(address: nat, pageSize: nat, page: nat, a: nat, r: nat)
    requires r < pageSize && address == page * pageSize + r && page == a * (pageSize + 1) + r
    ensures address / pageSize == page && Visited(page, pageSize)
  {
    DivModUnique(address, pageSize, page, r);
    DivModUnique(page, pageSize + 1, a, r);
  }

  lemma SteppedOver(pageSize: nat, a: nat)
    ensures !Visited(a * (pageSize + 1) + pageSize, pageSize)
  {
    DivModUnique(a * (pageSize + 1) + pageSize, pageSize + 1, a, pageSize);
  }

  /** Comparing addresses is comparing pages. */
  lemma BelowBoot(address: nat, pageSize: nat, page: nat, r: nat, bootPages: nat)
    requires r < pageSize && address == page * pageSize + r
    ensures address < bootPages * pageSize <==> page < bootPages
  {
    MultipleBound(bootPages - page, pageSize);
    MultipleBound(page - bootPages, pageSize);
    assert (bootPages - page) * pageSize == bootPages * pageSize - page * pageSize;
    assert (page - bootPages) * pageSize == page * pageSize - bootPages * pageSize;
  }

  /** One step of the loop advances by a page and a byte. */
  lemma NextAddress(address: nat, pageSize: nat, page: nat, a: nat, r: nat)
    requires r < pageSize && address == page * pageSize + r && page == a * (pageSize + 1) + r
    ensures r + 1 < pageSize ==>
      address + pageSize + 1 == (page + 1) * pageSize + (r + 1) && page + 1 == a * (pageSize + 1) + (r + 1)
    ensures r + 1 == pageSize ==>
      address + pageSize + 1 == (page + 2) * pageSize && page + 2 == (a + 1) * (pageSize + 1)
  {
    assert (page + 1) * pageSize == page * pageSize + pageSize;
    assert (page + 2) * pageSize == page * pageSize + 2 * pageSize;
    assert (a + 1) * (pageSize + 1) == a * (pageSize + 1) + (pageSize + 1);
  }

  lemma EraseVisited(pages: seq<Page>, pageSize: nat, page: nat)
    requires page < |pages| && Visited(page, pageSize)
    ensures Erased(pages, pageSize, page)[page := BlankPage(pageSize)] == Erased(pages, pageSize, page + 1)
  {
  }

  lemma SkipUnvisited(pages: seq<Page>, pageSize: nat, page: nat)
    requires !Visited(page, pageSize)
    ensures Erased(pages, pageSize, page) == Erased(pages, pageSize, page + 1)
  {
    forall p | 0 <= p < |pages|
      ensures Erased(pages, pageSize, page)[p] == Erased(pages, pageSize, page + 1)[p]
    {
    }
  }

  /** Pages past the boot section start do not matter. */
  lemma LimitAtBoot(pages: seq<Page>, pageSize: nat, limit: nat, bootPages: nat)
    requires limit == bootPages || (limit == bootPages + 1 && !Visited(bootPages, pageSize))
    ensures Erased(pages, pageSize, limit) == Erased(pages, pageSize, bootPages)
  {
    if limit == bootPages + 1 {
      SkipUnvisited(pages, pageSize, bootPages);
    }
  }

  /** The erase loop: the step of the `for` and the addition in its body both advance the
      address, so it moves by a page and a byte. `bootPages` pages make up the application. */
  method EraseChip(pages: seq<Page>, pageSize: nat, bootPages: nat) returns (after: seq<Page>)
    requires pageSize > 0 && bootPages <= |pages|
    ensures after == Erased(pages, pageSize, bootPages)
  {
    after := pages;
    var currFlashAddress := 0;
    ghost var page, a, r := 0, 0, 0;
    assert pages == Erased(pages, pageSize, 0);
    BelowBoot(0, pageSize, 0, 0, bootPages);
    while currFlashAddress < bootPages * pageSize
      invariant 0 <= r < pageSize && 0 <= a && 0 <= page
      invariant currFlashAddress == page * pageSize + r && page == a * (pageSize + 1) + r
      invariant page <= bootPages || (page == bootPages + 1 && !Visited(bootPages, pageSize))
      invariant after == Erased(pages, pageSize, page)
      decreases bootPages * pageSize - currFlashAddress
    {
      BelowBoot(currFlashAddress, pageSize, page, r, bootPages);
      AddressPage(currFlashAddress, pageSize, page, a, r);
      NextAddress(currFlashAddress, pageSize, page, a, r);
      EraseVisited(pages, pageSize, page);
      after := after[currFlashAddress / pageSize := BlankPage(pageSize)];
      currFlashAddress := currFlashAddress + pageSize;
      currFlashAddress := currFlashAddress + 1;
      if r + 1 < pageSize {
        page, r := page + 1, r + 1;
      } else {
        SteppedOver(pageSize, a);
        SkipUnvisited(pages, pageSize, page + 1);
        page, a, r := page + 2, a + 1, 0;
      }
    }
    BelowBoot(currFlashAddress, pageSize, page, r, bootPages);
    LimitAtBoot(pages, pageSize, page, bootPages);
  }

  /** Flash contents: so many pages, each of the page size. */
  predicate Contents(pages: seq<Page>, pageSize: nat, total: nat) {
    |pages| == total && forall p | 0 <= p < total :: |pages[p]| == pageSize
  }

  /** The loop clears the whole application section, whatever was in it, exactly when the section
      has no more pages than a page has bytes, that is, ends at or below pageSize * pageSize. */
  lemma ErasesAllExactly(pageSize: nat, bootPages: nat, total: nat)
    requires pageSize > 0 && bootPages <= total
    ensures (forall pages: seq<Page> | Contents(pages, pageSize, total) ::
               forall p | 0 <= p < bootPages :: Erased(pages, pageSize, bootPages)[p] == BlankPage(pageSize))
       <==> bootPages * pageSize <= pageSize * pageSize
  {
    MultipleBound(bootPages - pageSize, pageSize);
    MultipleBound(pageSize - bootPages, pageSize);
    assert (bootPages - pageSize) * pageSize == bootPages * pageSize - pageSize * pageSize;
    assert bootPages * pageSize <= pageSize * pageSize <==> bootPages <= pageSize;
    if bootPages <= pageSize {
      forall pages: seq<Page>, p | Contents(pages, pageSize, total) && 0 <= p < bootPages
        ensures Erased(pages, pageSize, bootPages)[p] == BlankPage(pageSize)
      {
        DivModUnique(p, pageSize + 1, 0, p);
      }
    } else {
      SteppedOver(pageSize, 0);
      var programmed: Page := seq(pageSize, _ => 0);
      var pages := seq(total, _ => programmed);
      assert Contents(pages, pageSize, total);
      assert Erased(pages, pageSize, bootPages)[pageSize][0] == 0 != BlankPage(pageSize)[0];
    }
  }

  /** With the pages of 256 bytes and the boot section at 0x1E000 that the project is configured
      for, page 256 survives a chip erase. */
  lemma ShippedConfigurationMissesAPage(pages: seq<Page>)
    requires |pages| == 512
    ensures Erased(pages, 256, 0x1_E000 / 256)[256] == pages[256]
  {
  }
}
