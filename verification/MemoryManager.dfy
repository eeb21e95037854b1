/** The kernel's memory manager: an array of page structures, a singly linked free list
    behind a sentinel, and the page directory and tables in physical memory. */
module MemoryManager {
  import opened AddressBits
  import opened Options
  import opened PageSpec
  import opened PutPage

  class Page {
    /** Where the structure lies in the array of pages; the sentinel lies past its end. */
    ghost const slot: nat
    var idx: bv32
    var refCnt: nat
    var next: Page?

    constructor (i: bv32, ghost at: nat)
      ensures slot == at && idx == i && refCnt == 0 && next == null
    {
      slot := at;
      idx := i;
      refCnt := 0;
      next := null;
    }
  }

  datatype FreeResult = Ignored | Dropped | Panic

  class Memory {
    const pages: seq<Page>
    const freeList: Page
    var ram: Ram
    /** The numbers of the frames on the free list, in list order. */
    ghost var free: seq<nat>

    ghost predicate Valid()
      reads this`free, pages, freeList
    {
      ListOk() && PoolOk(View())
    }

    /** The list behind the sentinel is the listed frames, each once.  Page structures in
        use may keep a stale link: only the links on the list are constrained. */
    ghost predicate ListOk()
      reads this`free, pages, freeList
    {
      && Shaped()
      && FreeDistinct()
      && freeList.next == NodeAt(0)
      && forall j :: 0 <= j < |free| ==> pages[free[j]].next == NodeAt(j + 1)
    }

    ghost predicate Shaped()
      reads pages
    {
      && |pages| == PAGE_NUMBER
      && freeList.slot == PAGE_NUMBER
      && (forall i :: 0 <= i < |pages| ==> pages[i].slot == i)
      && (forall i :: 0 <= i < |pages| ==> pages[i].idx == FrameNumber(i))
    }

    ghost predicate FreeDistinct()
      reads this`free
    {
      && (forall j :: 0 <= j < |free| ==> free[j] < PAGE_NUMBER)
      && (forall j, k :: 0 <= j < k < |free| ==> free[j] != free[k])
    }

    /** The node at position k of the list; the end of the list is null. */
    ghost function NodeAt(k: nat): Page?
      requires |pages| == PAGE_NUMBER && k <= |free| && FreeDistinct()
      reads this`free
    {
      if k < |free| then pages[free[k]] else null
    }

    ghost function Refs(): (r: seq<nat>)
      reads pages
      ensures |r| == |pages| && forall i :: 0 <= i < |pages| ==> r[i] == pages[i].refCnt
    {
      seq(|pages|, i requires 0 <= i < |pages| reads pages => pages[i].refCnt)
    }

    ghost function View(): (p: Pool)
      reads this`free, pages
    {
      Pool(Refs(), free)
    }

    ghost function State(): (m: Machine)
      reads this, pages
    {
      Machine(ram, View())
    }

    /** All frames are free; page structures and their numbers are given. */
    constructor (ps: seq<Page>, head: Page, memory: Ram)
      requires |ps| == PAGE_NUMBER && head.slot == PAGE_NUMBER
      requires forall i :: 0 <= i < |ps| ==> ps[i].slot == i
      requires forall i :: 0 <= i < |ps| ==> ps[i].idx == FrameNumber(i)
      modifies ps, head
      ensures Valid() && pages == ps && freeList == head && ram == memory
      ensures forall i :: 0 <= i < PAGE_NUMBER ==> Refs()[i] == 0
    {
      hide FrameNumber, PoolOk, ListOk, Refs;
      pages, freeList, ram, free := ps, head, memory, [];
      new;
      ThreadAll();
    }

    /** No frame is listed yet. */
    lemma NothingListed()
      requires Shaped() && free == [] && freeList.next == null
      ensures ListOk()
    {
      hide Shaped;
    }

    /** Threads every page structure onto the list. */
    method ThreadAll()
      requires Shaped() && free == []
      modifies this`free, pages, freeList
      ensures Valid()
      ensures forall i :: 0 <= i < PAGE_NUMBER ==> Refs()[i] == 0
    {
      hide FrameNumber, PoolOk, Refs, ListOk;
      freeList.next := null;
      NothingListed();
      var i := 0;
      ListHead();
      while i < PAGE_NUMBER
        invariant 0 <= i <= PAGE_NUMBER && ListOk() && |pages| == PAGE_NUMBER
        invariant |free| == i && forall k :: 0 <= k < i ==> free[k] == i - 1 - k
        invariant forall k :: 0 <= k < i ==> Refs()[k] == 0
      {
        SetRef(pages[i], i, 0);
        PushFree(pages[i], i);
        i := i + 1;
      }
      AllFree(View());
    }

    /** Puts the page structure of frame i at the head of the list. */
    method PushFree(pg: Page, ghost i: nat)
      requires ListOk() && i < PAGE_NUMBER && pg == pages[i] && i !in free
      modifies this`free, pg`next, freeList`next
      ensures ListOk() && free == [i] + old(free) && Refs() == old(Refs())
    {
      hide FrameNumber;
      pg.next := freeList.next;
      freeList.next := pg;
      free := [i] + free;
    }

    /** Takes the first frame off the list; None is the panic on an empty list. */
    method AllocPage() returns (r: Option<bv32>)
      requires Valid()
      modifies this`free, pages, freeList
      ensures Valid()
      ensures r.None? <==> old(free) == []
      ensures r.None? ==> View() == old(View())
      ensures r.Some? ==> r.value == FrameAddr(old(free)[0]) && View() == Taken(old(View()))
    {
      hide FrameNumber, FrameAddr, PoolOk, Refs, IndexToAddr, ListOk;
      ListHead();
      if freeList.next == null {
        return None;
      }
      ghost var before := View();
      TakenOk(before);
      var freePg: Page := freeList.next;
      SetRef(freePg, free[0], freePg.refCnt + 1);
      PopFree();
      return Some(IndexToAddr(freePg.idx));
    }

    /** Changes one reference count; the list does not depend on it. */
    method SetRef(pg: Page, ghost i: nat, count: nat)
      requires ListOk() && i < PAGE_NUMBER && pg == pages[i]
      modifies pg`refCnt
      ensures ListOk() && Refs() == old(Refs())[i := count]
    {
      hide FrameNumber;
      ghost var before := Refs();
      pg.refCnt := count;
      assert forall k :: 0 <= k < PAGE_NUMBER && k != i ==> pages[k] != pg;
      assert Refs() == before[i := count];
    }

    /** Takes the first node off the list; its own link is left as it is. */
    method PopFree()
      requires ListOk() && free != []
      modifies this`free, freeList`next
      ensures ListOk() && free == old(free)[1..] && Refs() == old(Refs())
    {
      hide FrameNumber;
      ListHead();
      freeList.next := freeList.next.next;
      free := free[1..];
    }

    /** The first node of the list is the page of the first free frame. */
    lemma ListHead()
      requires ListOk()
      ensures |pages| == PAGE_NUMBER
      ensures freeList.next == null <==> free == []
      ensures free != [] ==> free[0] < PAGE_NUMBER && freeList.next == pages[free[0]]
      ensures free != [] ==> IndexToAddr(freeList.next.idx) == FrameAddr(free[0])
    {
    }

    /** Gives up a reference; the last one puts the frame back at the head of the list. */
    method FreePage(addr: bv32) returns (r: FreeResult)
      requires Valid()
      modifies this`free, pages, freeList
      ensures r.Ignored? <==> !Managed(addr)
      ensures r.Ignored? ==> Valid() && View() == old(View())
      ensures r.Panic? <==> Managed(addr) && old(Refs())[FrameOf(addr)] == 0
      ensures r.Dropped? ==> Valid() && View() == Released(old(View()), FrameOf(addr))
    {
      hide FrameNumber, Managed, FrameOf, PoolOk, Refs, ListOk;
      if !Managed(addr) {
        return Ignored;
      }
      ListHead();
      ghost var before := View();
      var i := FrameOf(addr);
      var pg := pages[i];
      if pg.refCnt <= 0 {
        return Panic;
      }
      ReleasedOk(before, i);
      UsedNotListed(before, i);
      SetRef(pg, i, pg.refCnt - 1);
      if pg.refCnt == 0 {
        PushFree(pg, i);
      }
      return Dropped;
    }

    /** Maps addr's page to the frame at page, allocating a table if there is none. */
    method PutPage(page: bv32, addr: bv32) returns (r: Option<bv32>)
      requires Valid()
      modifies this`free, this`ram, pages, freeList
      ensures Valid()
      ensures r.Some? ==> r.value == page && Put(old(State()), page, addr) == Some(State())
      ensures r.None? ==> Put(old(State()), page, addr) == None && State() == old(State())
      ensures r.Some? && old(MachineOk(State())) ==> forall la ::
        Walk(ram, la) == Walk(old(ram), la) <==> Undisturbed(old(State()), page, addr, la)
      ensures r.Some? && old(MachineOk(State())) && !old(LargeAt(State(), addr)) ==>
        MachineOk(State()) && forall la :: PageOf(la) == PageOf(addr) ==> Walk(ram, la) == Some(PageAddr(page, la))
    {
      hide FrameNumber, PoolOk, Walk, TablesOk, PageAddr, FrameAddr, EntryAddr, Base, Entry, ListOk, Refs, Managed,
        DirEntryAddr, Store, Taken;
      ghost var before := State();
      var slot := (addr >> 20) & 0xffc;
      SlotBits(addr);
      PoolOkShaped(before.pool);
      var table: bv32;
      if Present(ram(slot)) {
        table := Base(ram(slot));
      } else {
        var tmp := AllocPage();
        if tmp.None? {
          return None;
        }
        ram := Store(ram, slot, Entry(tmp.value));
        table := tmp.value;
      }
      ram := Store(ram, EntryAddr(table, addr), Entry(page));
      assert Put(before, page, addr) == Some(State());
      MappedBy(before, page, addr);
      return Some(page);
    }
  }

  /** What a put from a machine in order means for every translation. */
  lemma MappedBy(m: Machine, page: bv32, addr: bv32)
    requires PoolShaped(m.pool)
    ensures Put(m, page, addr).Some? && MachineOk(m) ==> forall la ::
      Walk(Put(m, page, addr).value.ram, la) == Walk(m.ram, la) <==> Undisturbed(m, page, addr, la)
    ensures Put(m, page, addr).Some? && MachineOk(m) && !LargeAt(m, addr) ==>
      && MachineOk(Put(m, page, addr).value)
      && forall la :: PageOf(la) == PageOf(addr) ==>
           Walk(Put(m, page, addr).value.ram, la) == Some(PageAddr(page, la))
  {
    hide Walk, MachineOk, PageAddr, LargeAt, PageOf, Put, Undisturbed;
    if Put(m, page, addr).Some? && MachineOk(m) {
      forall la { PutKeeps(m, page, addr, la); }
      if !LargeAt(m, addr) {
        NotOnDirectory(m, addr);
        PutOk(m, page, addr);
        forall la | PageOf(la) == PageOf(addr) { PutMaps(m, page, addr, la); }
      }
    }
  }

  lemma NotOnDirectory(m: Machine, addr: bv32)
    ensures !LargeAt(m, addr) ==> !OnDirectory(m, addr)
  {
  }
}
