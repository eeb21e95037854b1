/** Mapping a frame at a linear address, judged by the processor's walk. */
module PutPage {
  import opened AddressBits
  import opened Options
  import opened PageSpec

  datatype Machine = Machine(ram: Ram, pool: Pool)

  ghost predicate MachineOk(m: Machine) {
    PoolOk(m.pool) && TablesOk(m.ram, m.pool)
  }

  predicate PoolShaped(p: Pool) {
    |p.refs| == PAGE_NUMBER && (p.free != [] ==> p.free[0] < PAGE_NUMBER)
  }

  lemma PoolOkShaped(p: Pool)
    requires PoolOk(p)
    ensures PoolShaped(p)
  {
  }

  /** The directory and tables after a frame is put at addr; None is a panic. */
  function Put(m: Machine, page: bv32, addr: bv32): Option<Machine>
    requires PoolShaped(m.pool)
  {
    var slot := DirEntryAddr(addr);
    var pde := m.ram(slot);
    if Present(pde) then
      Some(m.(ram := Store(m.ram, EntryAddr(Base(pde), addr), Entry(page))))
    else if m.pool.free == [] then None
    else
      var table := FrameAddr(m.pool.free[0]);
      var ram := Store(m.ram, slot, Entry(table));
      Some(Machine(Store(ram, EntryAddr(table, addr), Entry(page)), Taken(m.pool)))
  }

  /** Frame numbers and frame addresses tell the same frames apart. */
  lemma FramesApart(a: bv32, b: bv32)
    requires Managed(a) && Managed(b)
    ensures FrameOf(a) == FrameOf(b) <==> Base(a) == Base(b)
  {
    hide Base, Managed, AddrToIndex, FrameAddr;
    FrameOfAddr(a);
    FrameOfAddr(b);
    BaseBits(a);
    BaseBits(b);
  }

  /** A table entry is never a directory entry. */
  lemma EntryNotSlot(table: bv32, la: bv32, lb: bv32)
    requires Managed(table)
    ensures TableEntryAddr(table, la) != DirEntryAddr(lb)
  {
    hide Managed, TableEntryAddr, DirEntryAddr;
    EntryBits(table, la);
    SlotBits(lb);
  }

  // ----- Which entries a put changes -----

  /** The directory maps the 4 MByte around addr by one large page. */
  predicate LargeAt(m: Machine, addr: bv32) {
    var pde := m.ram(DirEntryAddr(addr));
    Present(pde) && Large(pde)
  }

  predicate HasTable(m: Machine, addr: bv32) {
    IsTable(m.ram(DirEntryAddr(addr)))
  }

  /** The directory entry whose table, or what is taken for one, a put writes to. */
  function TableUsed(m: Machine, addr: bv32): bv32
    requires PoolShaped(m.pool)
  {
    if Present(m.ram(DirEntryAddr(addr))) || m.pool.free == [] then m.ram(DirEntryAddr(addr))
    else Entry(FrameAddr(m.pool.free[0]))
  }

  /** The address of the word a put sets to the new entry. */
  function Target(m: Machine, addr: bv32): bv32
    requires PoolShaped(m.pool)
  {
    TableEntryAddr(TableUsed(m, addr), addr)
  }

  /** A put that goes through. */
  ghost predicate Puts(m: Machine, page: bv32, addr: bv32) {
    MachineOk(m) && Put(m, page, addr).Some?
  }

  lemma PutsShaped(m: Machine, page: bv32, addr: bv32)
    requires Puts(m, page, addr)
    ensures PoolShaped(m.pool)
  {
  }

  ghost function After(m: Machine, page: bv32, addr: bv32): Ram
    requires Puts(m, page, addr)
  {
    Put(m, page, addr).value.ram
  }

  ghost predicate IsNewTable(m: Machine, table: bv32)
    requires PoolOk(m.pool) && Managed(table)
  {
    && m.pool.free != []
    && FrameOf(table) == m.pool.free[0]
    && m.pool.refs[FrameOf(table)] == 0
    && Base(table) == FrameAddr(m.pool.free[0])
  }

  /** The table written to is one in use, or a frame nobody used, or else a large page. */
  lemma TableUsedOk(m: Machine, page: bv32, addr: bv32)
    requires Puts(m, page, addr)
    ensures var table := TableUsed(m, addr);
            && (Present(m.ram(DirEntryAddr(addr))) ==> table == m.ram(DirEntryAddr(addr)))
            && (!LargeAt(m, addr) ==> IsTable(table) && Managed(table))
            && (!Present(m.ram(DirEntryAddr(addr))) ==> !LargeAt(m, addr) && IsNewTable(m, table))
  {
    hide Base, Managed, Present, Large, Entry, DirEntryAddr, FrameAddr, FrameOf, EntryAddr, Taken;
    if HasTable(m, addr) {
      assert TableInUse(m.ram(DirEntryAddr(addr)), m.pool);
    } else if !LargeAt(m, addr) {
      var frame := FrameAddr(m.pool.free[0]);
      TableFlags(frame);
      SameBase(frame);
      FramesApart(Entry(frame), frame);
    }
  }

  /** The effect on memory: one entry of the table, and the directory slot of addr. */
  lemma PutEffect(m: Machine, page: bv32, addr: bv32, a: bv32)
    requires Puts(m, page, addr)
    ensures After(m, page, addr)(a) ==
      if a == Target(m, addr) then Entry(page)
      else if a == DirEntryAddr(addr) then TableUsed(m, addr)
      else m.ram(a)
  {
    hide Base, Managed, Present, Large, Entry, DirEntryAddr, TableEntryAddr, FrameAddr, FrameOf, EntryAddr, Taken;
    var table := TableUsed(m, addr);
    TableUsedOk(m, page, addr);
    EntryBits(table, addr);
    if !Present(m.ram(DirEntryAddr(addr))) {
      EntryNotSlot(table, addr, addr);
      SameBase(FrameAddr(m.pool.free[0]));
    }
  }

  // ----- Which walks read what a put writes -----

  /** The put writes into the directory: put_page takes a large page at address 0 for a table. */
  predicate OnDirectory(m: Machine, addr: bv32) {
    LargeAt(m, addr) && Base(m.ram(DirEntryAddr(addr))) == 0
  }

  /** The word written is the directory entry la's walk reads. */
  predicate HitsDirectory(m: Machine, addr: bv32, la: bv32) {
    OnDirectory(m, addr) && RegionOf(la) == IndexOf(addr)
  }

  /** The directory entry of la when addr's region has its table. */
  function DirWord(m: Machine, addr: bv32, la: bv32): bv32
    requires PoolShaped(m.pool)
  {
    if RegionOf(la) == RegionOf(addr) then TableUsed(m, addr) else m.ram(DirEntryAddr(la))
  }

  /** The word written is the table entry la's walk reads. */
  predicate HitsTable(m: Machine, addr: bv32, la: bv32)
    requires PoolShaped(m.pool)
  {
    IsTable(DirWord(m, addr, la)) && TableEntryAddr(DirWord(m, addr, la), la) == Target(m, addr)
  }

  lemma TargetSlot(m: Machine, page: bv32, addr: bv32, la: bv32)
    requires Puts(m, page, addr)
    ensures Target(m, addr) == DirEntryAddr(la) <==> HitsDirectory(m, addr, la)
    ensures OnDirectory(m, addr) ==> Target(m, addr) < 0x1000
  {
    hide Base, Managed, Present, Large, Entry, DirEntryAddr, TableEntryAddr, FrameAddr, FrameOf, Put, RegionOf, IndexOf;
    var table := TableUsed(m, addr);
    TableUsedOk(m, page, addr);
    if !LargeAt(m, addr) {
      EntryNotSlot(table, addr, la);
    } else if Base(table) == 0 {
      ZeroEntry(table, addr, la);
    } else {
      HighEntry(table, addr);
      SlotBits(la);
    }
  }

  /** A walk through a page table reads it outside the directory. */
  lemma DirWordManaged(m: Machine, page: bv32, addr: bv32, la: bv32)
    requires Puts(m, page, addr) && IsTable(DirWord(m, addr, la))
    ensures Managed(DirWord(m, addr, la))
  {
    hide Base, Managed, Present, Large, Entry, DirEntryAddr, TableEntryAddr, FrameAddr, FrameOf, Put, RegionOf;
    TableUsedOk(m, page, addr);
    if RegionOf(la) != RegionOf(addr) {
      assert TableInUse(m.ram(DirEntryAddr(la)), m.pool);
    }
  }

  /** The walk of la when its directory entry is the word written. */
  function NewThrough(m: Machine, page: bv32, addr: bv32, la: bv32): Option<bv32>
    requires PoolShaped(m.pool)
  {
    Through(Store(m.ram, Target(m, addr), Entry(page)), Entry(page), la)
  }

  /** For a page in the managed range that is the page read as a page table. */
  lemma NewThroughManaged(m: Machine, page: bv32, addr: bv32, la: bv32)
    requires PoolShaped(m.pool) && Managed(page) && Target(m, addr) < 0x1000
    ensures NewThrough(m, page, addr, la) == Through(m.ram, Entry(page), la)
  {
    hide Base, Managed, Entry, TableEntryAddr, Target, PageAddr, LargeAddr, Present, Large;
    EntryIsTable(page);
    EntryBits(Entry(page), la);
  }

  lemma OnDirectoryKept(m: Machine, page: bv32, addr: bv32)
    requires Puts(m, page, addr) && OnDirectory(m, addr)
    ensures TableUsed(m, addr) == m.ram(DirEntryAddr(addr))
  {
    hide Base, Managed, Large, Entry, DirEntryAddr, FrameAddr, MachineOk;
    TableUsedOk(m, page, addr);
  }

  // ----- The theorems -----

  /** Every translation after a put, large pages and all, from the memory before it. */
  lemma WalkAfter(m: Machine, page: bv32, addr: bv32, la: bv32)
    requires Puts(m, page, addr)
    ensures Walk(After(m, page, addr), la) ==
      if HitsDirectory(m, addr, la) then NewThrough(m, page, addr, la)
      else if HitsTable(m, addr, la) then Some(PageAddr(page, la))
      else Through(m.ram, DirWord(m, addr, la), la)
  {
    hide Base, Managed, Present, Large, Entry, DirEntryAddr, TableEntryAddr, FrameAddr, FrameOf, Put, PageAddr, PageOf,
      RegionOf, After, LargeAddr, Target, TableUsed, MachineOk, OnDirectory, IndexOf;
    var d := DirEntryAddr(la);
    PutsShaped(m, page, addr);
    PutEffect(m, page, addr, d);
    TargetSlot(m, page, addr, la);
    TargetSlot(m, page, addr, addr);
    SlotRegion(la, addr);
    if HitsDirectory(m, addr, la) {
      EntryFlags(page);
      PutEffect(m, page, addr, TableEntryAddr(Entry(page), la));
      OnDirectoryKept(m, page, addr);
    } else if IsTable(DirWord(m, addr, la)) {
      var pde := DirWord(m, addr, la);
      DirWordManaged(m, page, addr, la);
      EntryNotSlot(pde, la, addr);
      EntryFlags(page);
      OffsetBits(page, la);
      PutEffect(m, page, addr, TableEntryAddr(pde, la));
    }
  }

  /** In a table in use, or a new one, only addr's page shares its entry. */
  lemma HitsOwnPage(m: Machine, page: bv32, addr: bv32, la: bv32)
    requires Puts(m, page, addr) && !LargeAt(m, addr)
    ensures HitsTable(m, addr, la) <==> PageOf(la) == PageOf(addr)
  {
    hide Base, Managed, Present, Large, Entry, DirEntryAddr, TableEntryAddr, FrameAddr, FrameOf, Put, PageOf, RegionOf;
    var table := TableUsed(m, addr);
    TableUsedOk(m, page, addr);
    PageInRegion(la, addr);
    EntryRegion(table, la, addr);
    if RegionOf(la) != RegionOf(addr) && HasTable(m, la) {
      OtherTable(m, page, addr, la);
    }
  }

  /** Tables of other regions are not written to. */
  lemma OtherTable(m: Machine, page: bv32, addr: bv32, la: bv32)
    requires Puts(m, page, addr) && !LargeAt(m, addr)
    requires RegionOf(la) != RegionOf(addr) && HasTable(m, la)
    ensures var pde := m.ram(DirEntryAddr(la));
            && Managed(pde)
            && TablesApart(pde, TableUsed(m, addr))
            && TableEntryAddr(pde, la) != Target(m, addr)
  {
    hide Base, Managed, Present, Large, Entry, DirEntryAddr, TableEntryAddr, FrameAddr, FrameOf, Put, RegionOf;
    var pde := m.ram(DirEntryAddr(la));
    var table := TableUsed(m, addr);
    TableUsedOk(m, page, addr);
    assert TableInUse(pde, m.pool);
    SlotRegion(la, addr);
    EntryBits(pde, la);
    EntryBits(table, addr);
    if HasTable(m, addr) {
      assert TablesApart(pde, table);
    } else {
      FramesApart(pde, table);
    }
  }

  /** After a put with no large page in the way every address of addr's page is sent to the
      page, offset kept. */
  lemma PutMaps(m: Machine, page: bv32, addr: bv32, la: bv32)
    requires Puts(m, page, addr) && !LargeAt(m, addr) && PageOf(la) == PageOf(addr)
    ensures Walk(After(m, page, addr), la) == Some(PageAddr(page, la))
    ensures page & 0xfff == 0 ==> Walk(After(m, page, addr), la) == Some(page + Offset(la))
  {
    hide Walk, After, PageAddr, PageOf, MachineOk, Put, LargeAt, Offset;
    WalkAfter(m, page, addr, la);
    HitsOwnPage(m, page, addr, la);
    OffsetBits(page, la);
  }

  /** When a put takes effect.  With a large page in the way the address goes to the page
      only if it did before; and if that large page is the directory's own, and the entry
      written is addr's directory entry, only if the frame at page, which now serves as the
      page table, sends it there. */
  lemma PutMapsIff(m: Machine, page: bv32, addr: bv32, la: bv32)
    requires Puts(m, page, addr) && PageOf(la) == PageOf(addr)
    ensures Walk(After(m, page, addr), la) == Some(PageAddr(page, la)) <==>
      if !LargeAt(m, addr) then true
      else if HitsDirectory(m, addr, addr) then NewThrough(m, page, addr, la) == Some(PageAddr(page, la))
      else Walk(m.ram, la) == Some(PageAddr(page, la))
  {
    hide After, PageAddr, PageOf, RegionOf, MachineOk, Put, Base, Entry, Through, DirEntryAddr, TableEntryAddr,
      FrameAddr, IndexOf, Large, Present;
    WalkAfter(m, page, addr, la);
    PageInRegion(la, addr);
    TableUsedOk(m, page, addr);
    SlotRegion(la, addr);
    if !LargeAt(m, addr) {
      HitsOwnPage(m, page, addr, la);
    }
  }

  predicate BlankEntry(ram: Ram, table: bv32, la: bv32) {
    !Present(ram(TableEntryAddr(table, la)))
  }

  /** What must hold for la's translation to survive a put at addr: the word written is not
      one its walk reads, or the walk answers the same; and a new table's frame must not
      hold a stray entry for it. */
  predicate Undisturbed(m: Machine, page: bv32, addr: bv32, la: bv32)
    requires PoolShaped(m.pool)
  {
    if HitsDirectory(m, addr, la) then NewThrough(m, page, addr, la) == Walk(m.ram, la)
    else if HitsTable(m, addr, la) then Walk(m.ram, la) == Some(PageAddr(page, la))
    else
      || Present(m.ram(DirEntryAddr(addr))) || RegionOf(la) != RegionOf(addr)
      || m.pool.free == [] || BlankEntry(m.ram, FrameAddr(m.pool.free[0]), la)
  }

  /** A put keeps exactly the translations it does not disturb, whatever is mapped at addr. */
  lemma PutKeeps(m: Machine, page: bv32, addr: bv32, la: bv32)
    requires Puts(m, page, addr)
    ensures Walk(After(m, page, addr), la) == Walk(m.ram, la) <==> Undisturbed(m, page, addr, la)
  {
    hide Base, Managed, Large, Entry, Present, DirEntryAddr, TableEntryAddr, FrameAddr, FrameOf, PageAddr, PageOf,
      RegionOf, After, LargeAddr, HitsDirectory, HitsTable, MachineOk, Put;
    PutsShaped(m, page, addr);
    WalkAfter(m, page, addr, la);
    SlotRegion(la, addr);
    TableUsedOk(m, page, addr);
    if !Present(m.ram(DirEntryAddr(addr))) {
      SameBase(FrameAddr(m.pool.free[0]));
      SameTable(FrameAddr(m.pool.free[0]), TableUsed(m, addr), la);
    }
  }

  /** Without a large page at addr only the other pages of a new table are at stake. */
  lemma PutKeepsOthers(m: Machine, page: bv32, addr: bv32, la: bv32)
    requires Puts(m, page, addr) && !LargeAt(m, addr) && PageOf(la) != PageOf(addr)
    ensures Walk(After(m, page, addr), la) == Walk(m.ram, la) <==>
      || HasTable(m, addr) || RegionOf(la) != RegionOf(addr)
      || BlankEntry(m.ram, FrameAddr(m.pool.free[0]), la)
  {
    hide Base, Managed, Large, Entry, Present, DirEntryAddr, TableEntryAddr, FrameAddr, PageOf, RegionOf, After, Walk,
      HitsTable, BlankEntry, MachineOk;
    PutKeeps(m, page, addr, la);
    HitsOwnPage(m, page, addr, la);
  }

  /** The page may serve as a page table: it is in use and not one already, or else its
      entry maps a large page. */
  ghost predicate FitsDirectory(m: Machine, page: bv32, addr: bv32)
    requires |m.pool.refs| == PAGE_NUMBER && PoolShaped(m.pool)
  {
    || Large(page)
    || (Managed(page) && m.pool.refs[FrameOf(page)] != 0 && forall la: bv32 :: OtherFrame(m, page, addr, la))
  }

  predicate OtherFrame(m: Machine, page: bv32, addr: bv32, la: bv32)
    requires PoolShaped(m.pool)
  {
    RegionOf(la) != IndexOf(addr) && HasTable(m, la) ==> Base(m.ram(DirEntryAddr(la))) != Base(page)
  }

  /** The tables stay pairwise distinct frames in use, and the pool stays in order: always
      when the put writes to a page table or a large page, and when it writes to the
      directory exactly if the page may serve as a page table. */
  lemma PutOk(m: Machine, page: bv32, addr: bv32)
    requires Puts(m, page, addr)
    ensures MachineOk(Put(m, page, addr).value) <==> (OnDirectory(m, addr) ==> FitsDirectory(m, page, addr))
  {
    if OnDirectory(m, addr) {
      PutOkOnDirectory(m, page, addr);
    } else {
      PutOkElsewhere(m, page, addr);
    }
  }

  /** The directory after a put, slot by slot. */
  lemma SlotAfter(m: Machine, page: bv32, addr: bv32, la: bv32)
    requires Puts(m, page, addr)
    ensures After(m, page, addr)(DirEntryAddr(la)) ==
      if HitsDirectory(m, addr, la) then Entry(page) else DirWord(m, addr, la)
    ensures Present(m.ram(DirEntryAddr(addr))) ==> DirWord(m, addr, la) == m.ram(DirEntryAddr(la))
  {
    hide Base, Managed, Large, Entry, Present, DirEntryAddr, TableEntryAddr, FrameAddr, FrameOf, RegionOf, Put, After,
      IndexOf, MachineOk, Target, HitsDirectory;
    PutEffect(m, page, addr, DirEntryAddr(la));
    TargetSlot(m, page, addr, la);
    SlotRegion(la, addr);
    TableUsedOk(m, page, addr);
  }

  lemma PutOkElsewhere(m: Machine, page: bv32, addr: bv32)
    requires Puts(m, page, addr) && !OnDirectory(m, addr)
    ensures MachineOk(Put(m, page, addr).value)
  {
    hide Base, Managed, Large, Entry, Present, DirEntryAddr, TableEntryAddr, FrameAddr, FrameOf, EntryAddr, RegionOf,
      IndexOf, OnDirectory, TablesApart, TableInUse, DirWord, IsTable, LargeAt, Taken;
    var m' := Put(m, page, addr).value;
    PutsShaped(m, page, addr);
    if !Present(m.ram(DirEntryAddr(addr))) {
      TakenOk(m.pool);
    }
    forall la: bv32 ensures m'.ram(DirEntryAddr(la)) == DirWord(m, addr, la) {
      SlotAfter(m, page, addr, la);
    }
    forall la: bv32 | IsTable(DirWord(m, addr, la)) ensures TableInUse(DirWord(m, addr, la), m'.pool) {
      StillInUse(m, page, addr, la);
    }
    forall la: bv32, lb: bv32 | DirEntryAddr(la) != DirEntryAddr(lb)
      ensures TablesApart(DirWord(m, addr, la), DirWord(m, addr, lb))
    {
      StillApart(m, page, addr, la, lb);
    }
  }

  lemma StillInUse(m: Machine, page: bv32, addr: bv32, la: bv32)
    requires Puts(m, page, addr) && IsTable(DirWord(m, addr, la))
    ensures |Put(m, page, addr).value.pool.refs| == PAGE_NUMBER
    ensures TableInUse(DirWord(m, addr, la), Put(m, page, addr).value.pool)
  {
    hide Base, Managed, Large, Entry, Present, DirEntryAddr, TableEntryAddr, FrameAddr, FrameOf, EntryAddr, RegionOf;
    TableUsedOk(m, page, addr);
    if RegionOf(la) != RegionOf(addr) || Present(m.ram(DirEntryAddr(addr))) {
      SlotRegion(la, addr);
      assert TableInUse(m.ram(DirEntryAddr(la)), m.pool);
    }
  }

  lemma StillApart(m: Machine, page: bv32, addr: bv32, la: bv32, lb: bv32)
    requires Puts(m, page, addr) && DirEntryAddr(la) != DirEntryAddr(lb)
    ensures TablesApart(DirWord(m, addr, la), DirWord(m, addr, lb))
  {
    hide Base, Managed, Large, Entry, Present, DirEntryAddr, TableEntryAddr, FrameAddr, FrameOf, EntryAddr, RegionOf,
      Put, PoolOk;
    TableUsedOk(m, page, addr);
    SlotRegion(la, lb);
    SlotRegion(la, addr);
    SlotRegion(lb, addr);
    if !LargeAt(m, addr) && HasTable(m, la) && RegionOf(lb) == RegionOf(addr) {
      OtherTable(m, page, addr, la);
    }
    if !LargeAt(m, addr) && HasTable(m, lb) && RegionOf(la) == RegionOf(addr) {
      OtherTable(m, page, addr, lb);
    }
  }

  lemma PutOkOnDirectory(m: Machine, page: bv32, addr: bv32)
    requires Puts(m, page, addr) && OnDirectory(m, addr)
    ensures MachineOk(Put(m, page, addr).value) <==> FitsDirectory(m, page, addr)
  {
    hide FitsDirectory, TablesOk, Put, OnDirectory, Managed, PoolOk;
    PutsShaped(m, page, addr);
    DirectoryAfter(m, page, addr);
    var after := Put(m, page, addr).value;
    if TablesOk(after.ram, m.pool) {
      FitsIfOk(m, page, addr, after.ram);
    }
    if FitsDirectory(m, page, addr) {
      OkIfFits(m, page, addr, after.ram);
    }
  }

  /** The directory with one entry replaced. */
  ghost predicate Replaced(m: Machine, page: bv32, addr: bv32, ram: Ram) {
    forall la: bv32 :: ram(DirEntryAddr(la)) ==
      if RegionOf(la) == IndexOf(addr) then Entry(page) else m.ram(DirEntryAddr(la))
  }

  lemma DirectoryAfter(m: Machine, page: bv32, addr: bv32)
    requires Puts(m, page, addr) && OnDirectory(m, addr)
    ensures Put(m, page, addr).value.pool == m.pool
    ensures Replaced(m, page, addr, Put(m, page, addr).value.ram)
  {
    hide Base, Large, Entry, Present, DirEntryAddr, TableEntryAddr, FrameAddr, EntryAddr, RegionOf, IndexOf, MachineOk;
    PutsShaped(m, page, addr);
    forall la: bv32
      ensures Put(m, page, addr).value.ram(DirEntryAddr(la)) ==
        if RegionOf(la) == IndexOf(addr) then Entry(page) else m.ram(DirEntryAddr(la))
    {
      SlotAfter(m, page, addr, la);
    }
  }

  lemma FitsIfOk(m: Machine, page: bv32, addr: bv32, ram: Ram)
    requires PoolOk(m.pool)
    requires Replaced(m, page, addr, ram) && TablesOk(ram, m.pool)
    ensures FitsDirectory(m, page, addr)
  {
    hide Base, Managed, Large, Entry, Present, DirEntryAddr, FrameOf, RegionOf, IndexOf;
    EntryIsTable(page);
    EntryFlags(page);
    if Managed(page) {
      FramesApart(Entry(page), page);
    }
    var own := SomeAddress(IndexOf(addr));
    if !Large(page) {
      assert TableInUse(ram(DirEntryAddr(own)), m.pool);
      forall la: bv32 ensures OtherFrame(m, page, addr, la) {
        SlotRegion(la, own);
        assert DirEntryAddr(la) != DirEntryAddr(own) ==> TablesApart(ram(DirEntryAddr(la)), ram(DirEntryAddr(own)));
      }
    }
  }

  lemma OkIfFits(m: Machine, page: bv32, addr: bv32, ram: Ram)
    requires MachineOk(m)
    requires Replaced(m, page, addr, ram) && FitsDirectory(m, page, addr)
    ensures TablesOk(ram, m.pool)
  {
    hide Base, Managed, Large, Entry, Present, DirEntryAddr, FrameOf, RegionOf, IndexOf, PoolOk;
    PoolOkShaped(m.pool);
    EntryIsTable(page);
    EntryFlags(page);
    if Managed(page) {
      FramesApart(Entry(page), page);
    }
    forall la: bv32, lb: bv32 | DirEntryAddr(la) != DirEntryAddr(lb)
      ensures TablesApart(ram(DirEntryAddr(la)), ram(DirEntryAddr(lb)))
    {
      SlotRegion(la, lb);
      assert Large(page) || (OtherFrame(m, page, addr, la) && OtherFrame(m, page, addr, lb));
    }
  }

  // ----- Large pages in the way -----

  /** In a region mapped by a large page put_page takes the page for a table.  The region's
      translations change exactly when that table is the directory, the entry is the
      region's own, and the frame at page, which is then its page table, translates
      differently. */
  lemma LargePageKept(m: Machine, page: bv32, addr: bv32, la: bv32)
    requires Puts(m, page, addr) && LargeAt(m, addr) && RegionOf(la) == RegionOf(addr)
    ensures Walk(After(m, page, addr), la) != Walk(m.ram, la) <==>
      && Base(m.ram(DirEntryAddr(addr))) == 0 && IndexOf(addr) == RegionOf(addr)
      && NewThrough(m, page, addr, la) != Walk(m.ram, la)
  {
    hide Base, Large, Entry, Present, DirEntryAddr, TableEntryAddr, FrameAddr, Through, RegionOf, IndexOf,
      After, MachineOk, Put;
    PutKeeps(m, page, addr, la);
    TableUsedOk(m, page, addr);
  }

  /** The large page at physical address 0, which page_dir_init writes as 0x83, is taken
      for a table that is the directory itself: putting a page at 0x1000 leaves 0x1000
      where it was and overwrites the directory entry of the next 4 MByte. */
  lemma LargePageZeroClobbers(m: Machine, page: bv32)
    requires MachineOk(m) && m.ram(0) == 0x83
    ensures Put(m, page, 0x1000).Some?
    ensures Put(m, page, 0x1000).value.ram(DirEntryAddr(0x400000)) == Entry(page)
    ensures Walk(Put(m, page, 0x1000).value.ram, 0x1000) == Some(0x1000)
  {
    hide Entry, Base, DirEntryAddr, EntryAddr, LargeAddr, Present, Large, TablesOk;
    LargeZeroBits();
  }

  /** Other regions suffer from any large page that holds a page table: with one mapped at
      0x400000, as page_dir_init has it, and the table of the region at 0xC00000 in the frame
      there, a put at 0x400000 turns the fault at 0xC00000 into a mapping. */
  lemma LargePageHitsTable(m: Machine, page: bv32)
    requires MachineOk(m)
    requires m.ram(4) == 0x400083 && m.ram(12) == 0x400007 && m.ram(0x400000) == 0
    ensures Puts(m, page, 0x400000)
    ensures Walk(m.ram, 0xC00000) == None
    ensures Walk(After(m, page, 0x400000), 0xC00000) == Some(PageAddr(page, 0xC00000))
  {
    hide Entry, Base, DirEntryAddr, EntryAddr, TableEntryAddr, LargeAddr, Present, Large, MachineOk, After, PageAddr;
    SharedFrameBits();
    WalkAfter(m, page, 0x400000, 0xC00000);
  }
}
