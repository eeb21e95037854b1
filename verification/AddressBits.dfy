/** The bit arithmetic of addresses and of directory and table entries. */
module AddressBits {
  const MEM_LOW: bv32 := 0x100000
  const MEM_HIGH: bv32 := 0x1000000

  predicate Managed(a: bv32) {
    MEM_LOW <= a < MEM_HIGH
  }

  function AddrToIndex(a: bv32): bv32 {
    (a - MEM_LOW) >> 12
  }

  function IndexToAddr(i: bv32): bv32 {
    (i << 12) + MEM_LOW
  }

  // Bits of directory and table entries.
  predicate Present(entry: bv32) { entry & 0x01 != 0 }
  predicate Large(entry: bv32) { entry & 0x80 != 0 }
  function Base(entry: bv32): bv32 { entry & 0xfffff000 }

  /** An entry for a present, writable, user page or table. */
  function Entry(frame: bv32): bv32 { frame | 0x01 | 0x02 | 0x04 }

  // Parts of a linear address.
  function PageOf(la: bv32): bv32 { la >> 12 }
  function RegionOf(la: bv32): bv32 { la >> 22 }
  function Offset(la: bv32): bv32 { la & 0xfff }

  /** The number of a page inside its table. */
  function IndexOf(la: bv32): (i: bv32)
    ensures i <= 0x3ff
  {
    (la >> 12) & 0x3ff
  }

  function DirEntryAddr(la: bv32): bv32 {
    (la >> 22) << 2
  }

  function TableEntryAddr(entry: bv32, la: bv32): bv32 {
    EntryIn(Base(entry), IndexOf(la))
  }

  /** Entry i of the table at a page boundary. */
  function EntryIn(table: bv32, i: bv32): bv32 {
    table | (i << 2)
  }

  /** The address of element i of an array of words. */
  function Element(words: bv32, i: bv32): bv32 {
    words + (i << 2)
  }

  /** The address of the entry for addr in a table that starts at this address. */
  function EntryAddr(table: bv32, addr: bv32): bv32 {
    Element(table, IndexOf(addr))
  }

  function LargeAddr(pde: bv32, la: bv32): bv32 {
    (pde & 0xffc00000) | (la & 0x3fffff)
  }

  function PageAddr(pte: bv32, la: bv32): bv32 {
    Base(pte) | Offset(la)
  }

  /** The directory entry refers to a page table. */
  predicate IsTable(pde: bv32) {
    Present(pde) && !Large(pde)
  }

  // ----- Words and numbers -----

  lemma NextNumber(x: bv32)
    requires x < 3840
    ensures (x + 1) as nat == x as nat + 1
  {
  }

  lemma NumberInRange(x: bv32)
    ensures x as nat < 3840 <==> x < 3840
  {
  }

  lemma IndexRoundTrip(i: bv32)
    requires i < 3840
    ensures AddrToIndex(IndexToAddr(i)) == i && IndexToAddr(i) & 0xfff == 0 && Managed(IndexToAddr(i))
  {
  }

  lemma AddrRoundTrip(a: bv32)
    requires Managed(a)
    ensures AddrToIndex(a) < 3840 && IndexToAddr(AddrToIndex(a)) == Base(a)
  {
  }

  lemma SameNumber(x: bv32)
    ensures (x as nat) as bv32 == x
  {
  }

  // ----- Bits -----

  lemma SlotBits(la: bv32)
    ensures DirEntryAddr(la) < 0x1000
    ensures (la >> 20) & 0xffc == DirEntryAddr(la)
  {
  }

  lemma PageInRegion(la: bv32, lb: bv32)
    ensures PageOf(la) == PageOf(lb) ==> RegionOf(la) == RegionOf(lb)
  {
  }

  lemma SlotRegion(la: bv32, lb: bv32)
    ensures DirEntryAddr(la) == DirEntryAddr(lb) <==> RegionOf(la) == RegionOf(lb)
    ensures PageOf(la) == PageOf(lb) ==> DirEntryAddr(la) == DirEntryAddr(lb)
  {
  }

  lemma EntryBits(pde: bv32, la: bv32)
    ensures EntryAddr(Base(pde), la) == TableEntryAddr(pde, la)
    ensures Base(TableEntryAddr(pde, la)) == Base(pde)
    ensures Managed(pde) ==> MEM_LOW <= TableEntryAddr(pde, la)
  {
    hide *;
    EntryPlace(pde, la);
    EntryFrame(pde, la);
    EntryAbove(pde, la);
  }

  lemma EntryPlace(pde: bv32, la: bv32)
    ensures EntryAddr(Base(pde), la) == TableEntryAddr(pde, la)
  {
    hide IndexOf, Base, EntryIn, Element;
    IndexAdds(pde, IndexOf(la));
  }

  lemma EntryFrame(pde: bv32, la: bv32)
    ensures Base(TableEntryAddr(pde, la)) == Base(pde)
  {
    hide IndexOf, Base, EntryIn;
    IndexStays(pde, IndexOf(la));
  }

  lemma EntryAbove(pde: bv32, la: bv32)
    ensures Managed(pde) ==> MEM_LOW <= TableEntryAddr(pde, la)
  {
    hide IndexOf, Base, EntryIn, Managed;
    IndexRange(pde, IndexOf(la));
  }

  lemma IndexAdds(pde: bv32, i: bv32)
    requires i <= 0x3ff
    ensures Element(Base(pde), i) == EntryIn(Base(pde), i)
  {
  }

  lemma IndexStays(pde: bv32, i: bv32)
    requires i <= 0x3ff
    ensures Base(EntryIn(Base(pde), i)) == Base(pde)
  {
  }

  lemma IndexRange(pde: bv32, i: bv32)
    requires i <= 0x3ff
    ensures Managed(pde) ==> MEM_LOW <= EntryIn(Base(pde), i)
  {
  }

  lemma EntryRegion(pde: bv32, la: bv32, lb: bv32)
    ensures PageOf(la) == PageOf(lb) ==> TableEntryAddr(pde, la) == TableEntryAddr(pde, lb)
    ensures RegionOf(la) == RegionOf(lb) && PageOf(la) != PageOf(lb) ==>
      TableEntryAddr(pde, la) != TableEntryAddr(pde, lb)
  {
    hide IndexOf, PageOf, RegionOf, Base, EntryIn;
    IndexOfPage(la, lb);
    if IndexOf(la) != IndexOf(lb) {
      IndexInjective(pde, IndexOf(la), IndexOf(lb));
    }
  }

  lemma IndexOfPage(la: bv32, lb: bv32)
    ensures PageOf(la) == PageOf(lb) ==> IndexOf(la) == IndexOf(lb)
    ensures RegionOf(la) == RegionOf(lb) && PageOf(la) != PageOf(lb) ==> IndexOf(la) != IndexOf(lb)
  {
  }

  lemma IndexInjective(pde: bv32, i: bv32, j: bv32)
    requires i <= 0x3ff && j <= 0x3ff && i != j
    ensures EntryIn(Base(pde), i) != EntryIn(Base(pde), j)
  {
  }

  lemma EntryFlags(page: bv32)
    ensures Present(Entry(page)) && Base(Entry(page)) == Base(page)
  {
  }

  /** An entry is the page with the bits for present, writable and user set. */
  lemma AccessBits(page: bv32)
    ensures Entry(page) & 0x7 == 0x7 && Entry(page) & !0x7 == page & !0x7
  {
  }

  lemma TableFlags(frame: bv32)
    requires frame & 0xfff == 0
    ensures IsTable(Entry(frame)) && Base(Entry(frame)) == frame
    ensures Managed(frame) ==> Managed(Entry(frame))
  {
  }

  lemma OffsetBits(page: bv32, la: bv32)
    ensures PageAddr(Entry(page), la) == PageAddr(page, la)
    ensures page & 0xfff == 0 ==> PageAddr(page, la) == page + Offset(la)
  {
  }

  lemma BaseBits(a: bv32)
    requires Managed(a)
    ensures Managed(Base(a)) && AddrToIndex(Base(a)) == AddrToIndex(a)
  {
  }

  lemma SameTable(a: bv32, b: bv32, la: bv32)
    requires Base(a) == Base(b)
    ensures TableEntryAddr(a, la) == TableEntryAddr(b, la)
  {
    hide Base;
  }

  lemma SameBase(frame: bv32)
    requires frame & 0xfff == 0
    ensures Base(frame) == frame
  {
  }

  lemma HighEntry(pde: bv32, la: bv32)
    requires Base(pde) != 0
    ensures TableEntryAddr(pde, la) >= 0x1000
  {
  }

  /** A table at address 0 would be the directory itself. */
  lemma ZeroEntry(pde: bv32, addr: bv32, la: bv32)
    requires Base(pde) == 0
    ensures TableEntryAddr(pde, addr) < 0x1000
    ensures TableEntryAddr(pde, addr) == DirEntryAddr(la) <==> RegionOf(la) == IndexOf(addr)
  {
  }

  /** Some address is translated through entry i of the directory. */
  lemma SomeAddress(i: bv32) returns (la: bv32)
    requires i <= 0x3ff
    ensures RegionOf(la) == i
  {
    la := i << 22;
  }

  lemma EntryIsTable(page: bv32)
    ensures Large(Entry(page)) == Large(page)
    ensures Managed(page) <==> Managed(Entry(page))
  {
  }

  /** The directory entry 0x83 of the large page at physical address 0. */
  lemma LargeZeroBits()
    ensures DirEntryAddr(0x1000) == 0 && DirEntryAddr(0x400000) == 4
    ensures EntryAddr(Base(0x83), 0x1000) == 4
    ensures Present(0x83) && Large(0x83) && LargeAddr(0x83, 0x1000) == 0x1000
  {
  }

  /** A large page and a page table at the same address. */
  lemma SharedFrameBits()
    ensures DirEntryAddr(0x400000) == 4 && DirEntryAddr(0xC00000) == 12
    ensures Present(0x400083) && Large(0x400083) && Base(0x400083) == 0x400000
    ensures IsTable(0x400007) && TableEntryAddr(0x400007, 0xC00000) == 0x400000
    ensures TableEntryAddr(0x400083, 0x400000) == 0x400000 && !Present(0)
  {
  }
}
