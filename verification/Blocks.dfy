/** The blocks of pages that either manager hands out, of any size: where they lie, that no page is in two of
    them, and that giving one back restores what was. */
module Blocks {
  import opened Sv48
  import opened Managers
  import opened Requests
  import Bitmap
  import HoleList
  import Memory
  import Teardown

  /* ----- one request ----- */

  /** Pages start.. for count are free. */
  ghost predicate FreePages(m: Mgr, start: nat, count: nat) {
    Bitmap.FreeRun(BitsOf(m), start, count)
  }

  /** The hole list has an allocated segment of count pages from page on. */
  ghost predicate SegAt(segs: seq<HoleList.Seg>, page: nat, count: nat) {
    exists i :: 0 <= i < |segs| && segs[i] == HoleList.Seg(page, count, true)
  }

  lemma {:induction false} FindIs(segs: seq<HoleList.Seg>, n: nat, i: nat)
    requires HoleList.Partition(segs, n) && i < |segs|
    ensures HoleList.Find(segs, segs[i].page, 0) == i
  {
    var j := HoleList.Find(segs, segs[i].page, 0);
    if j < i {
      HoleList.PagesIncrease(segs, n, j, i);
      HoleList.SegStart(segs, n, j);
    }
  }

  /** What a granted request of at least one page hands out: pages that were free, marked and counted; with
      the bitmap the lowest such run; with the hole list one segment. */
  ghost predicate Granted(m: Mgr, count: nat, page: nat, m': Mgr) {
    && FreePages(m, page, count) && page + count <= Pages(m)
    && Intact(m') && Pages(m') == Pages(m) && m'.BitMgr? == m.BitMgr?
    && BitsOf(m') == Bitmap.Marked(BitsOf(m), page, count, true)
    && Used(m') == Used(m) + count && Peak(m') == Bitmap.Max(Peak(m), Used(m'))
    && (m.BitMgr? ==> forall s: nat :: s < page ==> !FreePages(m, s, count))
    && (m'.HoleMgr? ==> SegAt(m'.holes.segs, page, count))
  }

  lemma {:induction false} BitmapGrants(b: Bitmap.State, count: u64)
    requires Bitmap.Counted(b) && 0 < count && Bitmap.Allocate(b, count).0.Some?
    ensures Granted(BitMgr(b), count, Bitmap.Allocate(b, count).0.value, BitMgr(Bitmap.Allocate(b, count).1))
  {
    Bitmap.AllocateCounts(b, count);
    var page := Bitmap.FirstFit(b.bits, count, 0).value;
    Bitmap.RunFits(b.bits, page, count);
  }

  lemma {:induction false} HolesGrant(h: HoleList.State, count: u64)
    requires HoleList.Good(h) && 0 < count && HoleList.Allocate(h, count).0.Some?
    ensures Granted(HoleMgr(h), count, HoleList.Allocate(h, count).0.value, HoleMgr(HoleList.Allocate(h, count).1))
  {
    HoleList.AllocateKeepsIff(h, count);
    var i := HoleList.FirstHole(h.segs, count, 0);
    HoleList.SegStart(h.segs, h.nPages, i);
    HoleList.HoleIsRun(h.segs, h.nPages, i, count);
    HoleList.CarveKeeps(h.segs, h.nPages, i, count);
    HoleList.TotalBound(HoleList.Carve(h.segs, i, count));
    assert HoleList.Carve(h.segs, i, count)[i] == HoleList.Seg(h.segs[i].page, count, true);
    hide HoleList.Bits, HoleList.Total, HoleList.Partition, HoleList.Carve, Bitmap.Marked;
  }

  lemma PageOfAddr(page: nat)
    requires page < MAX_PAGES
    ensures PageIndex(FrameAddr(page)) == page
  {
  }

  lemma GrantedInMemory(m: Mgr, count: nat, page: nat, m': Mgr)
    requires Intact(m) && 0 < count && Granted(m, count, page, m')
    ensures page < MAX_PAGES
  {
  }

  /** Either manager: a request is refused and changes nothing, or grants what it says. */
  lemma {:induction false} GrantIs(m: Mgr, count: u64)
    requires Intact(m) && 0 < count
    ensures var (a, m') := Allocate(m, count);
      match a
      case None => m' == m
      case Some(addr) => addr == FrameAddr(PageIndex(addr)) && Granted(m, count, PageIndex(addr), m')
  {
    hide Granted;
    match m {
      case BitMgr(b) =>
        if Bitmap.Allocate(b, count).0.Some? {
          BitmapGrants(b, count);
          GrantedInMemory(m, count, Bitmap.Allocate(b, count).0.value, Allocate(m, count).1);
          PageOfAddr(Bitmap.Allocate(b, count).0.value);
        }
      case HoleMgr(h) =>
        if HoleList.Allocate(h, count).0.Some? {
          HolesGrant(h, count);
          GrantedInMemory(m, count, HoleList.Allocate(h, count).0.value, Allocate(m, count).1);
          PageOfAddr(HoleList.Allocate(h, count).0.value);
        }
    }
  }

  /** What a release does to the hole list: an allocated segment at the page is freed whole; any other
      release changes nothing. */
  lemma {:induction false} HolesTakeBack(h: HoleList.State, page: nat, count: u64)
    requires HoleList.Good(h)
    ensures var h' := HoleList.Release(h, page, count, true);
      && ((forall c: nat :: !SegAt(h.segs, page, c)) ==> h' == h)
      && (forall c: nat :: SegAt(h.segs, page, c) ==>
            && HoleList.Bits(h'.segs) == Bitmap.Marked(HoleList.Bits(h.segs), page, c, false)
            && h'.used == (h.used - count) % TWO_64 && h'.peak == h.peak && h'.nPages == h.nPages
            && (HoleList.Good(h') <==> count == c))
  {
    var i := HoleList.Find(h.segs, page, 0);
    HoleList.ReleaseKeepsIff(h, page, count);
    if i < |h.segs| && h.segs[i].taken {
      HoleList.FreedKeeps(h.segs, h.nPages, i);
      assert SegAt(h.segs, page, h.segs[i].count);
    }
    forall c: nat | SegAt(h.segs, page, c)
      ensures i < |h.segs| && h.segs[i] == HoleList.Seg(page, c, true)
    {
      var j :| 0 <= j < |h.segs| && h.segs[j] == HoleList.Seg(page, c, true);
      FindIs(h.segs, h.nPages, j);
    }
    hide HoleList.Bits, HoleList.Total, HoleList.Partition, HoleList.Freed, Bitmap.Marked;
  }

  lemma {:induction false} MarkedBack(bits: seq<bool>, page: nat, count: nat)
    requires Bitmap.FreeRun(bits, page, count)
    ensures Bitmap.Marked(Bitmap.Marked(bits, page, count, true), page, count, false) == bits
  {
  }

  /** Block page, count was handed out on the way from m to m1, and given back to m2. */
  ghost predicate Restored(m: Mgr, m1: Mgr, m2: Mgr) {
    && Intact(m2) && BitsOf(m2) == BitsOf(m) && Used(m2) == Used(m) && Peak(m2) == Peak(m1)
    && Pages(m2) == Pages(m) && m2.BitMgr? == m.BitMgr?
  }

  lemma {:induction false} GivenBack(m: Mgr, m1: Mgr, addr: nat, count: u64)
    requires Intact(m) && Granted(m, count, PageIndex(addr), m1)
    ensures Restored(m, m1, Release(m1, addr, count))
  {
    var page := PageIndex(addr);
    MarkedBack(BitsOf(m), page, count);
    CounterBack(m, count);
    match m1 {
      case BitMgr(b) =>
        Bitmap.ReleaseCountsIff(b, page, count);
        assert Bitmap.AllTaken(b.bits, page, count);
      case HoleMgr(h) =>
        HolesTakeBack(h, page, count);
    }
    hide Bitmap.Marked, HoleList.Release, HoleList.Bits, HoleList.Good, Bitmap.Counted, FreePages;
  }

  lemma CounterBack(m: Mgr, count: nat)
    ensures (Used(m) + count - count) % TWO_64 == Used(m)
  {
  }

  /** Giving a block back restores the pages and the counter, and leaves the high-water mark. */
  lemma {:induction false} GrantRoundTrip(m: Mgr, count: u64)
    requires Intact(m) && 0 < count && Allocate(m, count).0.Some?
    ensures var (a, m1) := Allocate(m, count); Restored(m, m1, Release(m1, a.value, count))
  {
    hide Allocate, Release, Granted, Intact, Restored;
    GrantIs(m, count);
    GivenBack(m, Allocate(m, count).1, Allocate(m, count).0.value, count);
  }

  /* ----- memory for a process ----- */

  lemma WholePages(size: u64)
    requires 0 < PagesFor(size)
    ensures var rounded := PagesFor(size) * PAGE_SIZE;
      && size <= rounded < size + PAGE_SIZE && PagesFor(rounded) == PagesFor(size) < TWO_64
  {
    PagesForNone(size);
  }

  /** Memory of any size for a process: it gets pages that were free and covers the size; that is recorded for
      it and for nobody else; and releasing what was recorded restores the manager. */
  lemma {:induction false} MemoryRoundTrip(s: Memory.State, pid: nat, size: u64)
    requires Intact(s.mgr) && 0 < PagesFor(size)
    ensures var (a, s') := Memory.AllocateMemory(s, pid, size);
      match a
      case None => s' == s
      case Some(addr) =>
        && s'.mem == s.mem && s'.roots == s.roots && s'.bytes == s.bytes
        && (forall q :: q != pid ==> Memory.Entries(s'.ledger, q) == Memory.Entries(s.ledger, q))
        && Granted(s.mgr, PagesFor(size), PageIndex(addr), s'.mgr)
        && exists g: Memory.Grant ::
             && Memory.Entries(s'.ledger, pid) == Memory.Entries(s.ledger, pid) + [g]
             && g.addr == addr && size <= g.size < size + PAGE_SIZE && g.size % PAGE_SIZE == 0
             && Restored(s.mgr, s'.mgr, Teardown.ReleaseMemory(s'.mgr, g.addr, g.size))
  {
    hide Granted, Restored, Intact, Allocate, Release, PagesFor;
    WholePages(size);
    var (a, s') := Memory.AllocateMemory(s, pid, size);
    GrantIs(s.mgr, PagesFor(size));
    if a.Some? {
      GrantRoundTrip(s.mgr, PagesFor(size));
      var g := Memory.Grant(a.value, PagesFor(size) * PAGE_SIZE);
      assert Memory.Entries(s'.ledger, pid) == Memory.Entries(s.ledger, pid) + [g];
    }
  }

  /* ----- any number of requests ----- */

  datatype Block = Block(page: nat, count: nat)

  predicate Within(b: Block, k: int) {
    b.page <= k < b.page + b.count
  }

  ghost predicate Covered(held: set<Block>, k: int) {
    exists b :: b in held && Within(b, k)
  }

  /** The blocks handed out and not given back hold the allocated pages, and no page is in two of them. */
  ghost predicate Holds(m: Mgr, held: set<Block>) {
    && Intact(m)
    && (forall b :: b in held ==> 0 < b.count && b.page + b.count <= |BitsOf(m)|)
    && (forall b, c, k {:trigger Within(b, k), Within(c, k)} ::
          b in held && c in held && Within(b, k) && Within(c, k) ==> b == c)
    && (forall k {:trigger BitsOf(m)[k]} :: 0 <= k < |BitsOf(m)| ==> (BitsOf(m)[k] <==> Covered(held, k)))
    && (m.HoleMgr? ==> forall b :: b in held ==> SegAt(m.holes.segs, b.page, b.count))
  }

  /** The blocks held after a request. */
  ghost function Next(m: Mgr, r: Request, held: set<Block>): set<Block> {
    match r
    case Ask(count) =>
      var a := Allocate(m, count).0;
      if a.Some? then held + {Block(PageIndex(a.value), count)} else held
    case Give(addr, count) => held - {Block(PageIndex(addr), count)}
  }

  ghost function HeldAfter(m: Mgr, rs: seq<Request>, held: set<Block>): set<Block>
    decreases |rs|
  {
    if rs == [] then held else HeldAfter(Serve(m, rs[0]).1, rs[1..], Next(m, rs[0], held))
  }

  /** At least one page is asked for, and what is given back is a block that is held. */
  ghost predicate Fair(r: Request, held: set<Block>) {
    match r
    case Ask(count) => 0 < count
    case Give(addr, count) => Block(PageIndex(addr), count) in held
  }

  ghost predicate AllFair(m: Mgr, rs: seq<Request>, held: set<Block>)
    decreases |rs|
  {
    rs == [] || (Fair(rs[0], held) && AllFair(Serve(m, rs[0]).1, rs[1..], Next(m, rs[0], held)))
  }

  lemma CarvedSegs(segs: seq<HoleList.Seg>, i: nat, count: nat, page: nat, c: nat)
    requires i < |segs| && count <= segs[i].count && !segs[i].taken && SegAt(segs, page, c)
    ensures SegAt(HoleList.Carve(segs, i, count), page, c)
  {
    var after := HoleList.Carve(segs, i, count);
    var j :| 0 <= j < |segs| && segs[j] == HoleList.Seg(page, c, true);
    var d := |after| - |segs|;
    assert after[if j < i then j else j + d] == segs[j];
  }

  lemma FreedSegs(segs: seq<HoleList.Seg>, i: nat, page: nat, c: nat)
    requires i < |segs| && segs[i].taken && SegAt(segs, page, c) && segs[i].page != page
    ensures SegAt(HoleList.Freed(segs, i, true), page, c)
  {
    var after := HoleList.Freed(segs, i, true);
    var j :| 0 <= j < |segs| && segs[j] == HoleList.Seg(page, c, true);
    var d := |segs| - |after|;
    assert after[if j < i then j else j - d] == segs[j];
  }

  /** A granted block is new, and beside all that are held. */
  lemma {:induction false} GrantHolds(m: Mgr, held: set<Block>, count: u64)
    requires Holds(m, held) && 0 < count && Allocate(m, count).0.Some?
    ensures Block(PageIndex(Allocate(m, count).0.value), count) !in held
    ensures Holds(Allocate(m, count).1, held + {Block(PageIndex(Allocate(m, count).0.value), count)})
  {
    GrantIs(m, count);
    var m' := Allocate(m, count).1;
    var b := Block(PageIndex(Allocate(m, count).0.value), count);
    BlockApart(m, held, b);
    if m.HoleMgr? {
      var i := HoleList.FirstHole(m.holes.segs, count, 0);
      forall c | c in held
        ensures SegAt(m'.holes.segs, c.page, c.count)
      {
        CarvedSegs(m.holes.segs, i, count, c.page, c.count);
      }
    }
    hide Allocate, Intact, FreePages;
    MoreCovered(BitsOf(m), BitsOf(m'), held, b);
  }

  lemma BlockApart(m: Mgr, held: set<Block>, b: Block)
    requires Holds(m, held) && FreePages(m, b.page, b.count)
    ensures forall c, k :: c in held && Within(c, k) ==> !Within(b, k)
  {
    forall c, k | c in held && Within(c, k)
      ensures !Within(b, k)
    {
      assert Covered(held, k) && BitsOf(m)[k];
    }
  }

  lemma MoreCovered(bits: seq<bool>, bits': seq<bool>, held: set<Block>, b: Block)
    requires bits' == Bitmap.Marked(bits, b.page, b.count, true)
    requires forall k {:trigger bits[k]} :: 0 <= k < |bits| ==> (bits[k] <==> Covered(held, k))
    ensures forall k {:trigger bits'[k]} :: 0 <= k < |bits'| ==> (bits'[k] <==> Covered(held + {b}, k))
  {
    forall k | 0 <= k < |bits'|
      ensures bits'[k] <==> Covered(held + {b}, k)
    {
      assert bits[k] <==> Covered(held, k);
      if c :| c in held && Within(c, k) {
        assert c in held + {b};
      }
      assert Within(b, k) ==> b in held + {b};
    }
  }

  lemma FewerCovered(bits: seq<bool>, bits': seq<bool>, held: set<Block>, b: Block)
    requires bits' == Bitmap.Marked(bits, b.page, b.count, false) && b in held
    requires forall k {:trigger bits[k]} :: 0 <= k < |bits| ==> (bits[k] <==> Covered(held, k))
    requires forall c, k :: c in held - {b} && Within(c, k) ==> !Within(b, k)
    ensures forall k {:trigger bits'[k]} :: 0 <= k < |bits'| ==> (bits'[k] <==> Covered(held - {b}, k))
  {
    forall k | 0 <= k < |bits'|
      ensures bits'[k] <==> Covered(held - {b}, k)
    {
      assert bits[k] <==> Covered(held, k);
      if c :| c in held && Within(c, k) {
        assert c != b ==> c in held - {b};
      }
      if c :| c in held - {b} && Within(c, k) {
        assert c in held;
      }
    }
  }

  /** A block given back leaves the others as they are. */
  lemma {:induction false} ReturnHolds(m: Mgr, held: set<Block>, addr: nat, count: u64)
    requires Holds(m, held) && Block(PageIndex(addr), count) in held
    ensures Holds(Release(m, addr, count), held - {Block(PageIndex(addr), count)})
  {
    var b, m' := Block(PageIndex(addr), count), Release(m, addr, count);
    assert forall c, k :: c in held - {b} && Within(c, k) ==> !Within(b, k);
    ReturnedBits(m, held, addr, count);
    FewerCovered(BitsOf(m), BitsOf(m'), held, b);
    if m.HoleMgr? {
      var i := HoleList.Find(m.holes.segs, b.page, 0);
      ReturnedSegment(m.holes, b.page, count);
      forall c | c in held - {b}
        ensures SegAt(m'.holes.segs, c.page, c.count)
      {
        assert Within(c, c.page) && !Within(b, c.page) && Within(b, b.page);
        FreedSegs(m.holes.segs, i, c.page, c.count);
      }
    }
    hide Release, Intact, Covered;
  }

  lemma {:induction false} ReturnedSegment(h: HoleList.State, page: nat, count: nat)
    requires HoleList.Good(h) && SegAt(h.segs, page, count)
    ensures var i := HoleList.Find(h.segs, page, 0); i < |h.segs| && h.segs[i] == HoleList.Seg(page, count, true)
  {
    var j :| 0 <= j < |h.segs| && h.segs[j] == HoleList.Seg(page, count, true);
    FindIs(h.segs, h.nPages, j);
  }

  lemma {:induction false} ReturnedBits(m: Mgr, held: set<Block>, addr: nat, count: u64)
    requires Holds(m, held) && Block(PageIndex(addr), count) in held
    ensures var m' := Release(m, addr, count);
      && Intact(m') && m'.BitMgr? == m.BitMgr?
      && BitsOf(m') == Bitmap.Marked(BitsOf(m), PageIndex(addr), count, false)
  {
    var page := PageIndex(addr);
    match m {
      case BitMgr(b) =>
        forall k | page <= k < page + count
          ensures b.bits[k]
        {
          assert Within(Block(page, count), k) && Covered(held, k) && BitsOf(m)[k];
        }
        Bitmap.ReleaseCountsIff(b, page, count);
      case HoleMgr(h) =>
        HolesTakeBack(h, page, count);
    }
  }

  /** Over any number of requests of any size, in which blocks are given back as they were handed out: the
      blocks held are apart from each other and hold exactly the allocated pages. */
  lemma {:induction false} HeldOverRuns(m: Mgr, rs: seq<Request>, held: set<Block>)
    requires Holds(m, held) && AllFair(m, rs, held)
    ensures Holds(Left(m, rs), HeldAfter(m, rs, held))
    decreases |rs|
  {
    hide Holds, Allocate, Release;
    if rs == [] {
    } else {
      match rs[0] {
        case Ask(count) =>
          if Allocate(m, count).0.Some? {
            GrantHolds(m, held, count);
          } else {
            RefusedHolds(m, held, count);
          }
        case Give(addr, count) =>
          ReturnHolds(m, held, addr, count);
      }
      HeldOverRuns(Serve(m, rs[0]).1, rs[1..], Next(m, rs[0], held));
    }
  }

  lemma {:induction false} RefusedHolds(m: Mgr, held: set<Block>, count: u64)
    requires Holds(m, held) && 0 < count && Allocate(m, count).0.None?
    ensures Allocate(m, count).1 == m
  {
    GrantIs(m, count);
  }

  lemma {:induction false} NothingHeld(n: nat, useHoles: bool)
    requires 0 < n <= MAX_PAGES
    ensures Holds(Fresh(n, useHoles), {})
  {
    FreshIntact(n, useHoles);
    FreshAgree(n);
  }

  /** So it is from fresh memory of any size on, with either manager. */
  lemma {:induction false} HeldFromFresh(n: nat, useHoles: bool, rs: seq<Request>)
    requires 0 < n <= MAX_PAGES && AllFair(Fresh(n, useHoles), rs, {})
    ensures Holds(Left(Fresh(n, useHoles), rs), HeldAfter(Fresh(n, useHoles), rs, {}))
  {
    NothingHeld(n, useHoles);
    HeldOverRuns(Fresh(n, useHoles), rs, {});
  }
}
