/**
 What the inspector accepts as non-volatile storage: pages whose written entries are made up of
 items, each with its checksums, and nothing else.
 */
module NvsPages {
  import opened Numbers
  import opened Wrappers
  import opened Bytes
  import opened Flash
  import opened FlashInspector

  type Page = b: seq<byte> | |b| == PAGE_SIZE witness Erased(PAGE_SIZE)

  // ----- Entries -----

  /** The two bits of an entry in the bitmap of its page, the lower one first. */
  function StateBits(page: Page, entry: nat): (nat, nat)
    requires entry < 126
  {
    var b := page[32 + entry / 4];
    (Bit(b, 2 * (entry % 4)), Bit(b, 2 * (entry % 4) + 1))
  }

  predicate IsWritten(page: Page, entry: nat)
    requires entry < 126
  {
    StateBits(page, entry) == (0, 1)
  }

  predicate IsIllegal(page: Page, entry: nat)
    requires entry < 126
  {
    StateBits(page, entry) == (1, 0)
  }

  lemma {:induction false} ShiftedBit(b: nat, k: nat, n: nat)
    requires n <= 3 && k < 2
    ensures Bit(b, 2 * n + k) == Bit(b / Power4(n), k)
  {
    if n > 0 {
      assert Bit(b, 2 * n + k) == Bit(b / 2, 2 * n + k - 1) == Bit(b / 2 / 2, 2 * (n - 1) + k);
      ShiftedBit(b / 4, k, n - 1);
      assert b / 2 / 2 == b / 4;
      assert b / 4 / Power4(n - 1) == b / Power4(n);
    } else {
      assert b / 1 == b;
    }
  }

  lemma TwoBits(b: nat)
    ensures b % 4 == Bit(b, 0) + 2 * Bit(b, 1)
  {
    LowBits(b);
    hide Bit;
    var q := b / 2;
    assert b == 2 * q + b % 2 && q == 2 * (q / 2) + q % 2;
  }

  lemma LowBits(b: nat)
    ensures Bit(b, 0) == b % 2 && Bit(b, 1) == b / 2 % 2
  {
    assert Bit(b, 1) == Bit(b / 2, 0);
  }

  lemma StateIs(page: Page, entry: nat)
    requires entry < 126
    ensures var (low, high) := StateBits(page, entry); EntryState(page, entry) == low + 2 * high
    ensures EntryState(page, entry) == WRITTEN <==> IsWritten(page, entry)
    ensures EntryState(page, entry) == 1 <==> IsIllegal(page, entry)
  {
    var b: nat, n := page[32 + entry / 4], entry % 4;
    ShiftedBit(b, 0, n);
    ShiftedBit(b, 1, n);
    TwoBits(b / Power4(n));
    SmallBits(b / Power4(n));
  }

  lemma SmallBits(b: nat)
    ensures Bit(b, 0) < 2 && Bit(b, 1) < 2
  {
    assert Bit(b, 1) == Bit(b / 2, 0);
  }

  // ----- Items -----

  /** An item: its first entry and how many it spans. */
  type Item = (nat, nat)

  function EntryOf(page: Page, item: Item): seq<byte>
    requires item.0 < 126
  {
    page[64 + 32 * item.0..96 + 32 * item.0]
  }

  predicate HasPayload(kind: int) {
    kind == 0x21 || kind == 0x41 || kind == 0x42
  }

  /** Integers of one to eight bytes, and the index of a blob. */
  predicate IsFixed(kind: int) {
    kind in {0x01, 0x11, 0x02, 0x12, 0x04, 0x14, 0x08, 0x18, 0x48}
  }

  /** All entries of the item are written, its checksum is right, and it is of one entry, or has a
      payload that fits into its other entries and has its checksum. */
  ghost predicate GoodItem(page: Page, item: Item, h: Hashes) {
    var (first, span) := item;
    && span >= 1 && first + span <= 126
    && (forall e :: first <= e < first + span ==> IsWritten(page, e))
    && var entry := EntryOf(page, item);
    && entry[2] == span && U32(entry, 4) == h.crc32(entry[..4] + entry[8..])
    && if HasPayload(entry[1]) then
         var size := U16(entry, 24);
         size <= 32 * (span - 1) && U32(entry, 28) == h.crc32(page[96 + 32 * first..96 + 32 * first + size])
       else IsFixed(entry[1]) && span == 1
  }

  function Payloads(page: Page, items: seq<Item>): nat
    requires forall item <- items :: item.0 < 126
  {
    if items == [] then 0 else
      assert items[0] in items;
      (if HasPayload(EntryOf(page, items[0])[1]) then 1 else 0) + Payloads(page, items[1..])
  }

  lemma WrittenIs(page: Page, from: nat, to: nat)
    requires from <= to <= 126
    ensures AllWritten(page, from, to) <==> forall e :: from <= e < to ==> IsWritten(page, e)
  {
    forall e | from <= e < to ensures EntryState(page, e) == WRITTEN <==> IsWritten(page, e) { StateIs(page, e); }
  }

  /** An item is accepted exactly if it is good. */
  lemma ItemIff(page: Page, index: nat, h: Hashes)
    requires index < 126
    ensures var span: nat := Entry(page, index)[2];
      && (CheckItem(page, index, h).Ok? <==> GoodItem(page, (index, span), h))
      && (CheckItem(page, index, h).Ok? ==>
           CheckItem(page, index, h).value == if HasPayload(Entry(page, index)[1]) then 1 else 0)
  {
    hide U32, U16, EntryState, IsWritten;
    var entry, span: nat := Entry(page, index), Entry(page, index)[2];
    assert EntryOf(page, (index, span)) == entry;
    if index + span <= 126 { WrittenIs(page, index, index + span); }
    KindsAre(entry[1]);
    assert entry[8..32] == entry[8..];
  }

  lemma KindsAre(kind: int)
    ensures kind in FIXED_TYPES || kind == INDEX_TYPE <==> IsFixed(kind)
    ensures kind in VARIABLE_TYPES <==> HasPayload(kind)
  {
  }

  /** The written entries from `index` on that are not consumed are those of good items, which lie
      one after the other. */
  ghost predicate MadeOf(page: Page, index: nat, consumed: nat, items: seq<Item>, h: Hashes) {
    && Stacked(items, Max(consumed, index)) && Explained(page, index, consumed, items)
    && forall item <- items :: GoodItem(page, item, h)
  }

  /** A page is accepted exactly if its written entries are made of good items; they are unique. */
  lemma {:induction false} ItemsIff(page: Page, index: nat, consumed: nat, h: Hashes)
    requires index <= 126 && (consumed > index ==> consumed <= 126 && AllWritten(page, index, consumed))
    ensures CheckItems(page, index, consumed, h).Ok? ==> MadeOf(page, index, consumed, Items(page, index, consumed), h)
    ensures forall items: seq<Item> :: MadeOf(page, index, consumed, items, h) ==>
      items == Items(page, index, consumed) && (forall item <- items :: item.0 < 126)
      && CheckItems(page, index, consumed, h) == Ok((|items|, Payloads(page, items)))
    decreases 126 - index
  {
    hide EntryState, Entry, Stacked, Explained, CheckItem, GoodItem, Payloads;
    if CheckItems(page, index, consumed, h).Ok? {
      ItemsCoverWrittenEntries(page, index, consumed, h);
      ItemsAreGood(page, index, consumed, h);
    }
    forall items: seq<Item> | MadeOf(page, index, consumed, items, h)
      ensures items == Items(page, index, consumed) && (forall item <- items :: item.0 < 126)
      ensures CheckItems(page, index, consumed, h) == Ok((|items|, Payloads(page, items)))
    {
      OnlyTheseItems(page, index, consumed, items, h);
    }
  }

  lemma {:induction false} ItemsAreGood(page: Page, index: nat, consumed: nat, h: Hashes)
    requires index <= 126 && CheckItems(page, index, consumed, h).Ok?
    ensures forall item <- Items(page, index, consumed) :: GoodItem(page, item, h)
    decreases 126 - index
  {
    hide EntryState, Entry, CheckItem, GoodItem;
    if index < 126 {
      if EntryState(page, index) != WRITTEN || index < consumed {
        ItemsAreGood(page, index + 1, consumed, h);
      } else {
        ItemIff(page, index, h);
        ItemsAreGood(page, index + 1, index + Entry(page, index)[2], h);
      }
    }
  }

  lemma GoodItemFacts(page: Page, items: seq<Item>, h: Hashes)
    requires forall item <- items :: GoodItem(page, item, h)
    ensures forall item <- items :: item.1 >= 1 && item.0 + item.1 <= 126
    ensures forall item <- items :: Entry(page, item.0)[2] == item.1
  {
    hide U32, U16;
  }

  lemma {:induction false} OnlyTheseItems(page: Page, index: nat, consumed: nat, items: seq<Item>, h: Hashes)
    requires index <= 126 && MadeOf(page, index, consumed, items, h)
    requires consumed > index ==> consumed <= 126 && AllWritten(page, index, consumed)
    ensures items == Items(page, index, consumed) && (forall item <- items :: item.0 < 126)
    ensures CheckItems(page, index, consumed, h) == Ok((|items|, Payloads(page, items)))
    decreases 126 - index
  {
    hide EntryState, Entry, CheckItem, GoodItem, Explained;
    GoodItemFacts(page, items, h);
    if index == 126 {
      NothingBehind(items);
    } else if index < consumed {
      StepOver(page, index, consumed, items);
      OnlyTheseItems(page, index + 1, consumed, items, h);
    } else if EntryState(page, index) != WRITTEN {
      NotCovered(page, index, consumed, items);
      StepOver(page, index, consumed, items);
      OnlyTheseItems(page, index + 1, consumed, items, h);
    } else {
      FirstCovers(page, index, consumed, items);
      assert items[0] in items;
      RestIsMade(page, index, consumed, items, h);
      OnlyTheseItems(page, index + 1, index + items[0].1, items[1..], h);
      FirstJoins(page, index, consumed, items, h);
    }
  }

  /** A good item before the others. */
  lemma FirstJoins(page: Page, index: nat, consumed: nat, items: seq<Item>, h: Hashes)
    requires index < 126 && EntryState(page, index) == WRITTEN && index >= consumed && items != []
    requires items[0].0 == index && GoodItem(page, items[0], h)
    requires forall item <- items[1..] :: item.0 < 126
    requires var rest, end := items[1..], index + items[0].1;
      rest == Items(page, index + 1, end) && CheckItems(page, index + 1, end, h) == Ok((|rest|, Payloads(page, rest)))
    ensures items == Items(page, index, consumed) && (forall item <- items :: item.0 < 126)
    ensures CheckItems(page, index, consumed, h) == Ok((|items|, Payloads(page, items)))
  {
    hide EntryState, Entry, CheckItem, GoodItem, CheckItems, Items, Payloads, EntryOf;
    assert items == [items[0]] + items[1..];
    SpanIs(page, items[0], h);
    ItemIff(page, index, h);
    EntryOfIs(page, items[0]);
    PayloadsHead(page, items);
    ItemsStep(page, index, consumed, h);
  }

  lemma PayloadsHead(page: Page, items: seq<Item>)
    requires items != [] && forall item <- items :: item.0 < 126
    ensures Payloads(page, items)
      == (if HasPayload(EntryOf(page, items[0])[1]) then 1 else 0) + Payloads(page, items[1..])
  {
  }

  lemma ItemsStep(page: Page, index: nat, consumed: nat, h: Hashes)
    requires index < 126 && EntryState(page, index) == WRITTEN && index >= consumed
    requires CheckItem(page, index, h).Ok?
    ensures var end: nat := index + Entry(page, index)[2];
      && Items(page, index, consumed) == [(index, end - index)] + Items(page, index + 1, end)
      && (CheckItems(page, index + 1, end, h).Ok? ==>
           var rest := CheckItems(page, index + 1, end, h).value;
           CheckItems(page, index, consumed, h) == Ok((rest.0 + 1, rest.1 + CheckItem(page, index, h).value)))
  {
    hide EntryState, Entry, CheckItem;
  }

  lemma SpanIs(page: Page, item: Item, h: Hashes)
    requires GoodItem(page, item, h)
    ensures item.0 < 126 && Entry(page, item.0)[2] == item.1
  {
    hide U32, U16;
  }

  lemma EntryOfIs(page: Page, item: Item)
    requires item.0 < 126
    ensures EntryOf(page, item) == Entry(page, item.0)
  {
  }

  lemma NothingBehind(items: seq<Item>)
    requires Stacked(items, 126) && forall item <- items :: item.1 >= 1 && item.0 + item.1 <= 126
    ensures items == []
  {
    if items != [] { SomeItemReaches(items); }
  }

  lemma SomeItemReaches(items: seq<Item>)
    requires items != [] && Stacked(items, 126)
    ensures exists item <- items :: item.1 < 1 || item.0 + item.1 > 126
  {
    assert items[0] in items;
  }

  lemma InOrder(items: seq<Item>, from: nat, k: nat)
    requires Stacked(items, from) && k < |items|
    ensures k > 0 ==> items[0].0 + items[0].1 <= items[k].0
  {
  }

  /** An entry that is not written is in no item, so no item begins there. */
  lemma NotCovered(page: Page, index: nat, consumed: nat, items: seq<Item>)
    requires index < 126 && EntryState(page, index) != WRITTEN && index >= consumed
    requires Explained(page, index, consumed, items) && Stacked(items, Max(consumed, index))
    ensures Stacked(items, index + 1)
  {
    hide EntryState;
    assert !Covered(items, index);
    forall k | 0 <= k < |items| ensures items[k].0 >= index + 1 {
      assert InItem(items[k], items[k].0);
    }
  }

  lemma StepOver(page: Page, index: nat, consumed: nat, items: seq<Item>)
    requires index < 126 && Explained(page, index, consumed, items)
    requires Stacked(items, Max(consumed, index)) && (index >= consumed ==> Stacked(items, index + 1))
    ensures Explained(page, index + 1, consumed, items) && Stacked(items, Max(consumed, index + 1))
  {
    hide EntryState, Covered;
  }

  lemma FirstCovers(page: Page, index: nat, consumed: nat, items: seq<Item>)
    requires index < 126 && EntryState(page, index) == WRITTEN && index >= consumed
    requires Explained(page, index, consumed, items) && Stacked(items, Max(consumed, index))
    ensures items != [] && items[0].0 == index
  {
    hide EntryState;
    assert Covered(items, index);
    var k :| 0 <= k < |items| && InItem(items[k], index);
    InOrder(items, Max(consumed, index), k);
  }

  lemma RestIsMade(page: Page, index: nat, consumed: nat, items: seq<Item>, h: Hashes)
    requires index < 126 && index >= consumed && MadeOf(page, index, consumed, items, h)
    requires items != [] && items[0].0 == index && items[0].1 >= 1 && index + items[0].1 <= 126
    ensures MadeOf(page, index + 1, index + items[0].1, items[1..], h)
    ensures AllWritten(page, index + 1, index + items[0].1)
  {
    hide EntryState, GoodItem, Covered;
    var end, rest := index + items[0].1, items[1..];
    assert items == [items[0]] + rest;
    forall e | index + 1 <= e < 126 ensures EntryState(page, e) == WRITTEN <==> e < end || Covered(rest, e) {
      OneMoreItem(items[0], rest, e);
      InFirst(items[0], e);
    }
    forall k | 0 <= k < |rest| ensures rest[k].0 >= end && rest[k].1 >= 1 { assert rest[k] == items[k + 1]; }
    assert forall j, k :: 0 <= j < k < |rest| ==> rest[j] == items[j + 1] && rest[k] == items[k + 1];
  }

  lemma InFirst(item: Item, e: nat)
    requires e >= item.0
    ensures InItem(item, e) <==> e < item.0 + item.1
  {
  }

  // ----- Pages -----

  /** The states of a page, each one bit less than the one before. */
  predicate IsState(word: nat, state: PageState) {
    match state
    case EmptyPage => word == 0xFFFF_FFFF
    case ActivePage => word == 0xFFFF_FFFE
    case FullPage => word == 0xFFFF_FFFC
    case FreeingPage => word == 0xFFFF_FFF8
  }

  /** A page in use: version, checksum, no illegal entry, and its written entries made of items. */
  ghost predicate GoodPage(page: Page, state: PageState, items: seq<Item>, h: Hashes) {
    && IsState(U32(page, 0), state) && !state.EmptyPage? && (page[8] == 0xFF || page[8] == 0xFE)
    && U32(page, 28) == h.crc32(page[4..28]) && (forall e :: 0 <= e < 126 ==> !IsIllegal(page, e))
    && MadeOf(page, 0, 0, items, h)
  }

  /** What is added to the report for a page in use. */
  function AddPage(r: NvsReport, state: PageState, items: nat, payloads: nat): NvsReport {
    NvsReport(
      r.empty, r.active + (if state.ActivePage? then 1 else 0), r.full + (if state.FullPage? then 1 else 0),
      r.freeing + (if state.FreeingPage? then 1 else 0), r.headers + 1, r.items + items, r.payloads + payloads)
  }

  lemma StateOfPageIs(word: nat, state: PageState)
    ensures StateOfPage(word) == Some(state) <==> IsState(word, state)
  {
  }

  lemma IllegalIs(page: Page)
    ensures IllegalState(page) <==> exists e :: 0 <= e < 126 && IsIllegal(page, e)
  {
    hide EntryState, IsIllegal;
    forall e | 0 <= e < 126 ensures EntryState(page, e) == 1 <==> IsIllegal(page, e) { StateIs(page, e); }
  }

  /** A page is accepted exactly if it is erased, or in use and good; and it is counted as such. */
  lemma PageIff(page: Page, r: NvsReport, h: Hashes)
    ensures CheckPage(page, r, h).Ok? <==>
      IsErased(page) || exists state, items: seq<Item> :: GoodPage(page, state, items, h)
    ensures IsErased(page) ==> CheckPage(page, r, h) == Ok(r.(empty := r.empty + 1))
    ensures forall state, items: seq<Item> :: GoodPage(page, state, items, h) ==>
      (forall item <- items :: item.0 < 126)
      && CheckPage(page, r, h) == Ok(AddPage(r, state, |items|, Payloads(page, items)))
  {
    hide U32, EntryState, IsIllegal, MadeOf, CheckItems, IllegalState, Payloads;
    ErasedWord(page);
    IllegalIs(page);
    ItemsIff(page, 0, 0, h);
    var word := U32(page, 0);
    forall state ensures StateOfPage(word) == Some(state) <==> IsState(word, state) { StateOfPageIs(word, state); }
    if CheckPage(page, r, h).Ok? && !IsErased(page) {
      assert GoodPage(page, StateOfPage(word).value, Items(page, 0, 0), h);
    }
  }

  lemma ErasedWord(page: Page)
    ensures IsErased(page) <==> page == Erased(PAGE_SIZE)
    ensures IsErased(page) ==> U32(page, 0) == 0xFFFF_FFFF
  {
  }

  ghost predicate PageOk(page: Page, h: Hashes) {
    IsErased(page) || exists state, items: seq<Item> :: GoodPage(page, state, items, h)
  }

  function PageAt(b: seq<byte>, k: nat): Page
    requires 4096 * k + 4096 <= |b|
  {
    b[4096 * k..4096 * k + 4096]
  }

  ghost predicate PagesOk(b: seq<byte>, h: Hashes) {
    forall k: nat :: 4096 * k + 4096 <= |b| ==> PageOk(PageAt(b, k), h)
  }

  /** Storage is accepted exactly if it is made of whole pages, and every one is erased or good. */
  lemma NvsIff(b: seq<byte>, h: Hashes)
    ensures ValidateNvs(b, h).Ok? <==> b != [] && |b| % 4096 == 0 && PagesOk(b, h)
  {
    hide CheckPages, PageOk;
    PagesIff(b, NO_PAGES, h);
  }

  lemma {:induction false} PagesIff(b: seq<byte>, r: NvsReport, h: Hashes)
    ensures CheckPages(b, r, h).Ok? <==> PagesOk(b, h)
    decreases |b|
  {
    hide CheckPage, GoodPage, PagesOk;
    if |b| >= 4096 {
      var page, rest := b[..PAGE_SIZE], b[PAGE_SIZE..];
      PageIff(page, r, h);
      if CheckPage(page, r, h).Ok? { PagesIff(rest, CheckPage(page, r, h).value, h); }
      FirstPage(b, h);
    } else {
      NoPages(b, h);
    }
  }

  lemma NoPages(b: seq<byte>, h: Hashes)
    requires |b| < 4096
    ensures PagesOk(b, h)
  {
  }

  lemma FirstPage(b: seq<byte>, h: Hashes)
    requires |b| >= 4096
    ensures PagesOk(b, h) <==> PageOk(b[..4096], h) && PagesOk(b[4096..], h)
  {
    hide PageOk;
    var rest := b[4096..];
    assert PageAt(b, 0) == b[..4096];
    if PagesOk(b, h) {
      forall k: nat | 4096 * k + 4096 <= |rest| ensures PageOk(PageAt(rest, k), h) {
        assert PageAt(rest, k) == PageAt(b, k + 1);
      }
    }
    if PageOk(b[..4096], h) && PagesOk(rest, h) {
      forall k: nat | 4096 * k + 4096 <= |b| ensures PageOk(PageAt(b, k), h) {
        if k > 0 { assert PageAt(rest, k - 1) == PageAt(b, k); }
      }
    }
  }
}
