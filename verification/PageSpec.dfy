/** Page frames, the page directory and the page tables as values, and the translation the
    processor makes of them: 32-bit paging, section 4.3 of Volume 3A of the Intel SDM, with
    the directory at physical address 0 and 4-MByte pages enabled. */
module PageSpec {
  import opened AddressBits
  import opened Options

  const PAGE_NUMBER: nat := 3840

  // ----- Frames -----

  /** The number of the frame an address lies in. */
  function FrameOf(a: bv32): (i: nat)
    requires Managed(a)
    ensures i < PAGE_NUMBER
  {
    AddrToIndex(a) as nat
  }

  /** The address frame i starts at. */
  function FrameAddr(i: nat): (a: bv32)
    requires i < PAGE_NUMBER
    ensures Managed(a) && a & 0xfff == 0 && FrameOf(a) == i
  {
    var x := FrameNumber(i);
    IndexRoundTrip(x);
    IndexToAddr(x)
  }

  /** Frame number i as a machine word. */
  function FrameNumber(i: nat): (x: bv32)
    requires i < PAGE_NUMBER
    ensures x < 3840 && x as nat == i
  {
    if i == 0 then 0
    else
      var y := FrameNumber(i - 1);
      NextNumber(y);
      NumberInRange(y + 1);
      y + 1
  }

  /** Addresses in one frame are the addresses that differ in the low 12 bits only. */
  lemma FrameOfAddr(a: bv32)
    requires Managed(a)
    ensures FrameAddr(FrameOf(a)) == Base(a)
  {
    AddrRoundTrip(a);
    SameNumber(AddrToIndex(a));
  }

  // ----- The pool of frames -----

  /** refs[i] is the reference count of frame i; free lists the frames to hand out. */
  datatype Pool = Pool(refs: seq<nat>, free: seq<nat>)

  ghost predicate PoolOk(p: Pool) {
    && |p.refs| == PAGE_NUMBER
    && (forall j, k :: 0 <= j < k < |p.free| ==> p.free[j] != p.free[k])
    && (forall k :: 0 <= k < |p.free| ==> p.free[k] < PAGE_NUMBER && p.refs[p.free[k]] == 0)
    && (forall i :: 0 <= i < PAGE_NUMBER && p.refs[i] == 0 ==> i in p.free)
  }

  /** The pool after a frame has been handed out. */
  function Taken(p: Pool): Pool
    requires p.free != [] && p.free[0] < |p.refs|
  {
    Pool(p.refs[p.free[0] := p.refs[p.free[0]] + 1], p.free[1..])
  }

  /** The pool after one reference to frame i has been given up. */
  function Released(p: Pool, i: nat): Pool
    requires i < |p.refs| && p.refs[i] != 0
  {
    var refs := p.refs[i := p.refs[i] - 1];
    Pool(refs, if refs[i] == 0 then [i] + p.free else p.free)
  }

  lemma TakenOk(p: Pool)
    requires PoolOk(p) && p.free != []
    ensures PoolOk(Taken(p))
    ensures p.refs[p.free[0]] == 0 && Taken(p).refs[p.free[0]] == 1 && p.free[0] !in Taken(p).free
  {
    var q := Taken(p);
    forall i | 0 <= i < PAGE_NUMBER && q.refs[i] == 0 ensures i in q.free {
      assert i != p.free[0];
      assert i in p.free;
    }
  }

  lemma ReleasedOk(p: Pool, i: nat)
    requires PoolOk(p) && i < PAGE_NUMBER && p.refs[i] != 0
    ensures PoolOk(Released(p, i))
  {
    var q := Released(p, i);
    if q.refs[i] == 0 {
      assert q.free == [i] + p.free;
    }
    forall k | 0 <= k < PAGE_NUMBER && q.refs[k] == 0 ensures k in q.free {
      if k != i {
        assert k in p.free;
      }
    }
  }

  /** The pool with every frame free, listed from the last to the first. */
  lemma AllFree(p: Pool)
    requires |p.refs| == |p.free| == PAGE_NUMBER
    requires forall i :: 0 <= i < PAGE_NUMBER ==> p.refs[i] == 0 && p.free[i] == PAGE_NUMBER - 1 - i
    ensures PoolOk(p)
  {
    forall k | 0 <= k < PAGE_NUMBER ensures k in p.free {
      assert p.free[PAGE_NUMBER - 1 - k] == k;
    }
  }

  lemma UsedNotListed(p: Pool, i: nat)
    requires PoolOk(p) && i < PAGE_NUMBER && p.refs[i] != 0
    ensures i !in p.free
  {
  }

  function Used(refs: seq<nat>): nat {
    if refs == [] then 0 else (if refs[0] == 0 then 0 else 1) + Used(refs[1..])
  }

  lemma {:induction false} UsedUpdate(refs: seq<nat>, i: nat, r: nat)
    requires i < |refs|
    ensures Used(refs[i := r]) == Used(refs) - (if refs[i] == 0 then 0 else 1) + (if r == 0 then 0 else 1)
  {
    var after := refs[i := r];
    if i == 0 {
      assert after[1..] == refs[1..];
    } else {
      assert after[1..] == refs[1..][i-1 := r];
      UsedUpdate(refs[1..], i - 1, r);
    }
  }

  lemma {:induction false} AllUsed(refs: seq<nat>)
    requires forall i :: 0 <= i < |refs| ==> refs[i] != 0
    ensures Used(refs) == |refs|
  {
    if refs != [] {
      AllUsed(refs[1..]);
    }
  }

  lemma {:induction false} ListedAndUsed(refs: seq<nat>, free: seq<nat>)
    requires forall j, k :: 0 <= j < k < |free| ==> free[j] != free[k]
    requires forall k :: 0 <= k < |free| ==> free[k] < |refs| && refs[free[k]] == 0
    requires forall i :: 0 <= i < |refs| && refs[i] == 0 ==> i in free
    ensures |free| + Used(refs) == |refs|
    decreases |free|
  {
    if free == [] {
      AllUsed(refs);
    } else {
      var f := free[0];
      var taken := refs[f := 1];
      UsedUpdate(refs, f, 1);
      forall i | 0 <= i < |taken| && taken[i] == 0 ensures i in free[1..] {
        assert i in free && i != f;
      }
      ListedAndUsed(taken, free[1..]);
    }
  }

  /** No frame is lost: the frames on the list and the frames in use are all the frames. */
  lemma FramesConserved(p: Pool)
    requires PoolOk(p)
    ensures |p.free| + Used(p.refs) == PAGE_NUMBER
  {
    ListedAndUsed(p.refs, p.free);
  }

  // ----- Runs of the allocator -----

  datatype Call = Alloc | Free(frame: nat)

  /** The calls that do not end in a panic. */
  ghost predicate Served(p: Pool, c: Call)
    requires PoolOk(p)
  {
    match c
    case Alloc => p.free != []
    case Free(i) => i < PAGE_NUMBER && p.refs[i] != 0
  }

  ghost function Serve(p: Pool, c: Call): (q: Pool)
    requires PoolOk(p) && Served(p, c)
    ensures PoolOk(q)
  {
    match c
    case Alloc => TakenOk(p); Taken(p)
    case Free(i) => ReleasedOk(p, i); Released(p, i)
  }

  ghost predicate ServedAll(p: Pool, calls: seq<Call>)
    requires PoolOk(p)
    decreases |calls|
  {
    calls == [] || (Served(p, calls[0]) && ServedAll(Serve(p, calls[0]), calls[1..]))
  }

  ghost function ServeAll(p: Pool, calls: seq<Call>): (q: Pool)
    requires PoolOk(p) && ServedAll(p, calls)
    ensures PoolOk(q)
    decreases |calls|
  {
    if calls == [] then p else ServeAll(Serve(p, calls[0]), calls[1..])
  }

  /** The frames the calls to Alloc return, in order. */
  ghost function Handed(p: Pool, calls: seq<Call>): seq<nat>
    requires PoolOk(p) && ServedAll(p, calls)
    decreases |calls|
  {
    if calls == [] then []
    else (if calls[0].Alloc? then [p.free[0]] else []) + Handed(Serve(p, calls[0]), calls[1..])
  }

  function GivenBack(calls: seq<Call>): seq<nat> {
    if calls == [] then []
    else (if calls[0].Free? then [calls[0].frame] else []) + GivenBack(calls[1..])
  }

  ghost predicate OutAtMostOnce(p: Pool) {
    forall i :: 0 <= i < |p.refs| ==> p.refs[i] == 0 || p.refs[i] == 1
  }

  function OutCount(p: Pool, i: nat): int
    requires i < |p.refs|
  {
    if p.refs[i] == 0 then 0 else 1
  }

  /** Whatever the calls, a frame is out exactly as often as it was handed out and not
      given back, and that is never more than once at a time. */
  lemma {:induction false} HandedMinusGivenBack(p: Pool, calls: seq<Call>, i: nat)
    requires PoolOk(p) && OutAtMostOnce(p) && ServedAll(p, calls) && i < PAGE_NUMBER
    ensures var q := ServeAll(p, calls);
            && OutAtMostOnce(q)
            && OutCount(q, i) == OutCount(p, i) + multiset(Handed(p, calls))[i] - multiset(GivenBack(calls))[i]
    decreases |calls|
  {
    if calls != [] {
      var q := Serve(p, calls[0]);
      HandedMinusGivenBack(q, calls[1..], i);
      if calls[0].Alloc? {
        assert Handed(p, calls) == [p.free[0]] + Handed(q, calls[1..]);
        assert multiset(Handed(p, calls)) == multiset{p.free[0]} + multiset(Handed(q, calls[1..]));
        assert GivenBack(calls) == GivenBack(calls[1..]);
      } else {
        assert Handed(p, calls) == Handed(q, calls[1..]);
        assert GivenBack(calls) == [calls[0].frame] + GivenBack(calls[1..]);
        assert multiset(GivenBack(calls)) == multiset{calls[0].frame} + multiset(GivenBack(calls[1..]));
      }
    }
  }

  // ----- Translation -----

  /** Physical memory: the word at every address. */
  type Ram = bv32 -> bv32

  function Store(ram: Ram, a: bv32, v: bv32): Ram {
    (b: bv32) => if b == a then v else ram(b)
  }

  /** The processor's translation of a linear address; None is a page fault. */
  function Walk(ram: Ram, la: bv32): Option<bv32> {
    Through(ram, ram(DirEntryAddr(la)), la)
  }

  /** The rest of the walk, when the directory entry read was pde. */
  function Through(ram: Ram, pde: bv32, la: bv32): Option<bv32> {
    if !Present(pde) then None
    else if Large(pde) then Some(LargeAddr(pde, la))
    else
      var pte := ram(TableEntryAddr(pde, la));
      if !Present(pte) then None else Some(PageAddr(pte, la))
  }

  /** The page tables in the directory are pairwise distinct frames in use. */
  ghost predicate TablesOk(ram: Ram, p: Pool)
    requires |p.refs| == PAGE_NUMBER
  {
    && (forall la: bv32 :: IsTable(ram(DirEntryAddr(la))) ==> TableInUse(ram(DirEntryAddr(la)), p))
    && (forall la: bv32, lb: bv32 :: DirEntryAddr(la) != DirEntryAddr(lb) ==>
          TablesApart(ram(DirEntryAddr(la)), ram(DirEntryAddr(lb))))
  }

  predicate TableInUse(pde: bv32, p: Pool)
    requires |p.refs| == PAGE_NUMBER
  {
    Managed(pde) && p.refs[FrameOf(pde)] != 0
  }

  predicate TablesApart(a: bv32, b: bv32) {
    IsTable(a) && IsTable(b) ==> Base(a) != Base(b)
  }
}
