/** Both page managers behind one interface, and how they compare. */
module Managers {
  import opened Sv48
  import Bitmap
  import HoleList

  datatype Mgr = BitMgr(bitmap: Bitmap.State) | HoleMgr(holes: HoleList.State)

  function Pages(m: Mgr): nat {
    match m
    case BitMgr(b) => |b.bits|
    case HoleMgr(h) => h.nPages
  }

  function Used(m: Mgr): u64 {
    match m
    case BitMgr(b) => b.used
    case HoleMgr(h) => h.used
  }

  function Peak(m: Mgr): u64 {
    match m
    case BitMgr(b) => b.peak
    case HoleMgr(h) => h.peak
  }

  function BitsOf(m: Mgr): seq<bool> {
    match m
    case BitMgr(b) => b.bits
    case HoleMgr(h) => HoleList.Bits(h.segs)
  }

  function AddrOf(page: Option<nat>): Option<nat> {
    match page
    case None => None
    case Some(p) => Some((BASE_FRAME + p) * PAGE_SIZE)
  }

  /** Address handed out, if any, and the manager afterwards. */
  ghost function Allocate(m: Mgr, count: nat): (Option<nat>, Mgr) {
    match m
    case BitMgr(b) => var (p, b') := Bitmap.Allocate(b, count); (AddrOf(p), BitMgr(b'))
    case HoleMgr(h) => var (p, h') := HoleList.Allocate(h, count); (AddrOf(p), HoleMgr(h'))
  }

  /** The hole list is the one that unlinks a merged tail. */
  ghost function Release(m: Mgr, addr: nat, count: nat): Mgr {
    var page := PageIndex(addr);
    match m
    case BitMgr(b) => BitMgr(Bitmap.Release(b, page, count))
    case HoleMgr(h) => HoleMgr(HoleList.Release(h, page, count, true))
  }

  /** Every allocated segment is a single page. */
  ghost predicate Unit(segs: seq<HoleList.Seg>) {
    forall i :: 0 <= i < |segs| && segs[i].taken ==> segs[i].count == 1
  }

  /** The list partitions memory; a memory of no pages is one hole of no pages. */
  predicate Covering(h: HoleList.State) {
    if h.nPages == 0 then h.segs == [HoleList.Seg(0, 0, false)] else HoleList.Partition(h.segs, h.nPages)
  }

  /** A manager that has only seen single-page requests. */
  ghost predicate Ok(m: Mgr) {
    && Pages(m) <= MAX_PAGES
    && (m.HoleMgr? ==> Covering(m.holes) && Unit(m.holes.segs))
  }

  predicate InRange(m: Mgr, f: nat) {
    BASE_FRAME <= f < BASE_FRAME + Pages(m)
  }

  ghost predicate Allocated(m: Mgr, f: nat) {
    BASE_FRAME <= f < BASE_FRAME + |BitsOf(m)| && BitsOf(m)[f - BASE_FRAME]
  }

  lemma {:induction false} OkBits(m: Mgr)
    requires Ok(m)
    ensures |BitsOf(m)| == Pages(m)
  {
    if m.HoleMgr? {
      HoleList.BitsLength(m.holes.segs);
      assert m.holes.nPages == 0 ==> m.holes.segs[1..] == [] && HoleList.Width(m.holes.segs) == 0;
    }
  }

  /** First-fit for one page: the first free segment starts at the lowest free page. */
  lemma {:induction false} FirstHoleIsLowest(h: HoleList.State)
    requires HoleList.Partition(h.segs, h.nPages)
    ensures var i := HoleList.FirstHole(h.segs, 1, 0);
      Bitmap.FirstFit(HoleList.Bits(h.segs), 1, 0) == if i == |h.segs| then None else Some(h.segs[i].page)
  {
    var bits := HoleList.Bits(h.segs);
    var i := HoleList.FirstHole(h.segs, 1, 0);
    HoleList.BitsLength(h.segs);
    forall k | 0 <= k < |bits| && (i < |h.segs| ==> k < h.segs[i].page)
      ensures bits[k] && !Bitmap.FreeRun(bits, k, 1)
    {
      var j := HoleList.SegOfPage(h.segs, 0, k);
      if i < |h.segs| && i < j {
        HoleList.PagesIncrease(h.segs, h.nPages, i, j);
      }
      HoleList.SegStart(h.segs, h.nPages, j);
      HoleList.BitOfSeg(h.segs, h.nPages, j, k);
    }
    if i < |h.segs| {
      HoleList.SegStart(h.segs, h.nPages, i);
      HoleList.HoleIsRun(h.segs, h.nPages, i, 1);
    }
  }

  /** One page from the hole list. */
  lemma {:induction false} HoleAllocateOne(h: HoleList.State)
    requires h.nPages <= MAX_PAGES && Covering(h) && Unit(h.segs)
    ensures var (a, h') := HoleList.Allocate(h, 1); var bits := HoleList.Bits(h.segs);
      && a == (if (h.used + 1) % TWO_64 > h.nPages then None else Bitmap.FirstFit(bits, 1, 0))
      && Covering(h') && Unit(h'.segs) && h'.nPages == h.nPages
      && if a.None? then h' == h
         else HoleList.Bits(h'.segs) == Bitmap.Marked(bits, a.value, 1, true)
              && h'.used == (h.used + 1) % TWO_64 && h'.peak == Bitmap.Max(h.peak, h'.used)
  {
    OkBits(HoleMgr(h));
    if 0 < h.nPages {
      FirstHoleIsLowest(h);
      var i := HoleList.FirstHole(h.segs, 1, 0);
      if i < |h.segs| {
        HoleList.SegStart(h.segs, h.nPages, i);
        HoleList.CarveKeeps(h.segs, h.nPages, i, 1);
        CarveUnit(h.segs, i);
      }
    }
  }

  /** One page from either manager: the lowest free frame, nothing else changes. Refused exactly
      when the counter check fails or every page is taken. */
  lemma {:induction false} AllocateOne(m: Mgr)
    requires Ok(m)
    ensures var (a, m') := Allocate(m, 1);
      && a == (if (Used(m) + 1) % TWO_64 > Pages(m) then None else AddrOf(Bitmap.FirstFit(BitsOf(m), 1, 0)))
      && Ok(m') && Pages(m') == Pages(m) && m'.BitMgr? == m.BitMgr?
      && (a.None? ==> m' == m)
      && (a.Some? ==>
            var f := a.value / PAGE_SIZE;
            && a.value == f * PAGE_SIZE && InRange(m, f) && !Allocated(m, f)
            && (forall g :: BASE_FRAME <= g < f ==> Allocated(m, g))
            && BitsOf(m') == Bitmap.Marked(BitsOf(m), f - BASE_FRAME, 1, true)
            && Used(m') == (Used(m) + 1) % TWO_64
            && Peak(m') == Bitmap.Max(Peak(m), Used(m')))
  {
    hide HoleList.Allocate, Covering, Unit, HoleList.Bits;
    OkBits(m);
    var bits := BitsOf(m);
    assert forall k :: 0 <= k < |bits| ==> (!bits[k] <==> Bitmap.FreeRun(bits, k, 1));
    if m.HoleMgr? {
      HoleAllocateOne(m.holes);
    }
  }

  lemma CarveUnit(segs: seq<HoleList.Seg>, i: nat)
    requires Unit(segs) && i < |segs| && 1 <= segs[i].count
    ensures Unit(HoleList.Carve(segs, i, 1))
  {
  }

  lemma FreedUnit(segs: seq<HoleList.Seg>, i: nat)
    requires Unit(segs) && i < |segs|
    ensures Unit(HoleList.Freed(segs, i, true))
  {
  }

  /** The segment found for an allocated page is that single page. */
  lemma {:induction false} FindAllocated(h: HoleList.State, k: nat)
    requires HoleList.Partition(h.segs, h.nPages) && Unit(h.segs) && k < h.nPages
    ensures |HoleList.Bits(h.segs)| == h.nPages
    ensures var i := HoleList.Find(h.segs, k, 0);
      HoleList.Bits(h.segs)[k] <==> i < |h.segs| && h.segs[i].taken
  {
    var j := HoleList.SegOfPage(h.segs, 0, k);
    HoleList.BitOfSeg(h.segs, h.nPages, j, k);
    var i := HoleList.Find(h.segs, k, 0);
    if i < |h.segs| {
      HoleList.SegStart(h.segs, h.nPages, i);
      if i < j {
        HoleList.PagesIncrease(h.segs, h.nPages, i, j);
      } else if j < i {
        HoleList.PagesIncrease(h.segs, h.nPages, j, i);
      }
    }
  }

  /** One page given back to the hole list, allocated or not. */
  lemma {:induction false} HoleReleaseOne(h: HoleList.State, k: nat)
    requires h.nPages <= MAX_PAGES && Covering(h) && Unit(h.segs) && k < h.nPages
    ensures var h' := HoleList.Release(h, k, 1, true); var bits := HoleList.Bits(h.segs);
      && Covering(h') && Unit(h'.segs) && h'.nPages == h.nPages && h'.peak == h.peak && |bits| == h.nPages
      && HoleList.Bits(h'.segs) == Bitmap.Marked(bits, k, 1, false)
      && h'.used == if bits[k] then (h.used - 1) % TWO_64 else h.used
  {
    FindAllocated(h, k);
    var bits, i := HoleList.Bits(h.segs), HoleList.Find(h.segs, k, 0);
    if i < |h.segs| && h.segs[i].taken {
      HoleList.FreedKeeps(h.segs, h.nPages, i);
      FreedUnit(h.segs, i);
    } else {
      assert bits == Bitmap.Marked(bits, k, 1, false);
    }
    hide HoleList.Bits, HoleList.Partition, HoleList.Freed, HoleList.Total, HoleList.Find, Unit;
  }

  /** Releasing one page clears its bit in either manager. The bitmap counts every release; the
      hole list ignores the release of a page that is not allocated. */
  lemma {:induction false} ReleaseOne(m: Mgr, f: nat)
    requires Ok(m) && InRange(m, f)
    ensures var m' := Release(m, f * PAGE_SIZE, 1);
      && Ok(m') && Pages(m') == Pages(m) && m'.BitMgr? == m.BitMgr? && Peak(m') == Peak(m)
      && |BitsOf(m)| == Pages(m)
      && BitsOf(m') == Bitmap.Marked(BitsOf(m), f - BASE_FRAME, 1, false)
      && Used(m') == if m.BitMgr? || Allocated(m, f) then (Used(m) - 1) % TWO_64 else Used(m)
  {
    OkBits(m);
    var k := f - BASE_FRAME;
    assert PageIndex(f * PAGE_SIZE) == k;
    hide HoleList.Release, HoleList.Bits, Covering, Unit;
    if m.HoleMgr? {
      HoleReleaseOne(m.holes, k);
    }
  }

  /* ----- the two managers in lockstep ----- */

  datatype Op = Alloc | Free(frame: nat)

  ghost function Apply(m: Mgr, op: Op): (Option<nat>, Mgr) {
    match op
    case Alloc => Allocate(m, 1)
    case Free(f) => (None, Release(m, f * PAGE_SIZE, 1))
  }

  /** Every release in ops is of a page that is allocated at that time. */
  ghost predicate Matched(m: Mgr, ops: seq<Op>)
    decreases |ops|
  {
    ops == [] || ((ops[0].Free? ==> Allocated(m, ops[0].frame)) && Matched(Apply(m, ops[0]).1, ops[1..]))
  }

  /** The addresses ops are answered with. */
  ghost function Answers(m: Mgr, ops: seq<Op>): seq<Option<nat>>
    decreases |ops|
  {
    if ops == [] then [] else [Apply(m, ops[0]).0] + Answers(Apply(m, ops[0]).1, ops[1..])
  }

  ghost function After(m: Mgr, ops: seq<Op>): Mgr
    decreases |ops|
  {
    if ops == [] then m else After(Apply(m, ops[0]).1, ops[1..])
  }

  /** Same pages, same counters. */
  ghost predicate Agree(m: Mgr, n: Mgr) {
    Ok(m) && Ok(n) && Pages(m) == Pages(n) && BitsOf(m) == BitsOf(n) && Used(m) == Used(n) && Peak(m) == Peak(n)
  }

  /** On single-page requests and matched releases the two managers cannot be told apart. */
  lemma {:induction false} Lockstep(m: Mgr, n: Mgr, ops: seq<Op>)
    requires Agree(m, n) && Matched(m, ops)
    ensures Matched(n, ops)
    ensures Answers(m, ops) == Answers(n, ops)
    ensures Agree(After(m, ops), After(n, ops))
    decreases |ops|
  {
    hide Allocate, Release, Ok;
    if ops == [] {
    } else {
      match ops[0] {
        case Alloc =>
          AllocateOne(m);
          AllocateOne(n);
        case Free(f) =>
          OkBits(m);
          ReleaseOne(m, f);
          ReleaseOne(n, f);
      }
      Lockstep(Apply(m, ops[0]).1, Apply(n, ops[0]).1, ops[1..]);
    }
  }

  /** The counter is the number of allocated pages. */
  ghost predicate Exact(m: Mgr) {
    Used(m) == Bitmap.CountSet(BitsOf(m))
  }

  /** The largest counter at any time of ops. */
  ghost function MostUsed(m: Mgr, ops: seq<Op>): u64
    decreases |ops|
  {
    if ops == [] then Used(m) else Bitmap.Max(Used(m), MostUsed(Apply(m, ops[0]).1, ops[1..]))
  }

  lemma {:induction false} CountsOne(bits: seq<bool>, k: nat)
    requires k < |bits| && !bits[k]
    ensures Bitmap.CountSet(Bitmap.Marked(bits, k, 1, true)) == Bitmap.CountSet(bits) + 1 <= |bits|
  {
    Bitmap.RunFits(bits, k, 1);
  }

  lemma NoWrap(used: nat, pages: nat)
    requires used + 1 <= pages <= MAX_PAGES
    ensures (used + 1) % TWO_64 == used + 1
  {
  }

  lemma {:induction false} AllocCounts(m: Mgr)
    requires Ok(m) && Exact(m)
    ensures var (a, m') := Allocate(m, 1);
      && Ok(m') && Exact(m')
      && (if a.None? then m' == m else Used(m) < Used(m') && Peak(m') == Bitmap.Max(Peak(m), Used(m')))
  {
    assert Pages(m) <= MAX_PAGES;
    hide Allocate, Ok, BitsOf, Bitmap.CountSet, Bitmap.Marked, Bitmap.FirstFit, Bitmap.FreeRun;
    OkBits(m);
    AllocateOne(m);
    var (a, m') := Allocate(m, 1);
    if a.Some? {
      var k: nat := a.value / PAGE_SIZE - BASE_FRAME;
      assert BitsOf(m') == Bitmap.Marked(BitsOf(m), k, 1, true);
      CountsOne(BitsOf(m), k);
      NoWrap(Used(m), Pages(m));
    }
  }

  lemma {:induction false} FreeCounts(m: Mgr, f: nat)
    requires Ok(m) && Exact(m) && Allocated(m, f)
    ensures var m' := Release(m, f * PAGE_SIZE, 1);
      Ok(m') && Exact(m') && Used(m') < Used(m) && Peak(m') == Peak(m)
  {
    hide Release, Ok, BitsOf;
    var bits, k: nat := BitsOf(m), f - BASE_FRAME;
    OkBits(m);
    ReleaseOne(m, f);
    var without := Bitmap.Marked(bits, k, 1, false);
    assert BitsOf(Release(m, f * PAGE_SIZE, 1)) == without;
    CountsOne(without, k);
    assert Bitmap.Marked(without, k, 1, true) == bits;
  }

  /** On single-page requests and matched releases the counter stays the number of allocated pages,
      and the high-water mark is the largest it has been. */
  lemma {:induction false} CountersOverRuns(m: Mgr, ops: seq<Op>)
    requires Ok(m) && Exact(m) && Used(m) <= Peak(m) && Matched(m, ops)
    ensures Exact(After(m, ops)) && Peak(After(m, ops)) == Bitmap.Max(Peak(m), MostUsed(m, ops))
    decreases |ops|
  {
    hide Allocate, Release, Exact, Ok;
    if ops == [] {
    } else {
      match ops[0] {
        case Alloc => AllocCounts(m);
        case Free(f) => FreeCounts(m, f);
      }
      CountersOverRuns(Apply(m, ops[0]).1, ops[1..]);
    }
  }

  /* ----- releases that meet a free page ----- */

  /** Same pages; the counters may differ. */
  ghost predicate SameTaken(m: Mgr, n: Mgr) {
    Ok(m) && Ok(n) && Pages(m) == Pages(n) && BitsOf(m) == BitsOf(n)
  }

  ghost predicate FreesInRange(m: Mgr, ops: seq<Op>) {
    forall i :: 0 <= i < |ops| && ops[i].Free? ==> InRange(m, ops[i].frame)
  }

  /** At no request is there a free page that the counter refuses to hand out. */
  ghost predicate Unhindered(m: Mgr, ops: seq<Op>)
    decreases |ops|
  {
    ops == [] ||
    ((ops[0].Alloc? && Bitmap.FirstFit(BitsOf(m), 1, 0).Some? ==> (Used(m) + 1) % TWO_64 <= Pages(m))
     && Unhindered(Apply(m, ops[0]).1, ops[1..]))
  }

  lemma RestInRange(m: Mgr, m': Mgr, ops: seq<Op>)
    requires ops != [] && FreesInRange(m, ops) && Pages(m') == Pages(m)
    ensures FreesInRange(m', ops[1..])
  {
    assert forall i :: 0 <= i < |ops[1..]| ==> ops[1..][i] == ops[i + 1];
  }

  /** Whatever pages are released, free ones too: the managers answer alike as long as neither counter
      refuses a free page. */
  lemma {:induction false} LockstepUnhindered(m: Mgr, n: Mgr, ops: seq<Op>)
    requires SameTaken(m, n) && FreesInRange(m, ops) && Unhindered(m, ops) && Unhindered(n, ops)
    ensures Answers(m, ops) == Answers(n, ops) && SameTaken(After(m, ops), After(n, ops))
    decreases |ops|
  {
    hide Allocate, Release, Ok, BitsOf, FreesInRange;
    if ops == [] {
    } else {
      match ops[0] {
        case Alloc =>
          AllocateOne(m);
          AllocateOne(n);
          AllocateSame(m, n);
        case Free(f) =>
          FirstInRange(m, ops);
          ReleaseOne(m, f);
          ReleaseOne(n, f);
      }
      RestInRange(m, Apply(m, ops[0]).1, ops);
      LockstepUnhindered(Apply(m, ops[0]).1, Apply(n, ops[0]).1, ops[1..]);
    }
  }

  lemma FirstInRange(m: Mgr, ops: seq<Op>)
    requires ops != [] && FreesInRange(m, ops) && ops[0].Free?
    ensures InRange(m, ops[0].frame)
  {
  }

  lemma {:induction false} AllocateSame(m: Mgr, n: Mgr)
    requires SameTaken(m, n)
    requires Bitmap.FirstFit(BitsOf(m), 1, 0).Some? ==>
               (Used(m) + 1) % TWO_64 <= Pages(m) && (Used(n) + 1) % TWO_64 <= Pages(n)
    ensures Allocate(m, 1).0 == Allocate(n, 1).0 && SameTaken(Allocate(m, 1).1, Allocate(n, 1).1)
  {
    hide Allocate, Ok, BitsOf;
    AllocateOne(m);
    AllocateOne(n);
  }

  lemma {:induction false} ExactStays(m: Mgr, op: Op)
    requires Ok(m) && Exact(m) && m.HoleMgr? && (op.Free? ==> InRange(m, op.frame))
    ensures var m' := Apply(m, op).1; Ok(m') && Exact(m') && m'.HoleMgr? && Pages(m') == Pages(m)
  {
    hide Allocate, Release, Ok, Exact;
    match op {
      case Alloc =>
        AllocCounts(m);
        AllocateOne(m);
      case Free(f) =>
        ReleaseOne(m, f);
        if Allocated(m, f) {
          FreeCounts(m, f);
        } else {
          IgnoredStays(m, f);
        }
    }
  }

  lemma {:induction false} IgnoredStays(m: Mgr, f: nat)
    requires Ok(m) && Exact(m) && m.HoleMgr? && InRange(m, f) && !Allocated(m, f)
    ensures Exact(Release(m, f * PAGE_SIZE, 1))
  {
    hide Release, Ok, BitsOf;
    OkBits(m);
    ReleaseOne(m, f);
    assert Bitmap.Marked(BitsOf(m), f - BASE_FRAME, 1, false) == BitsOf(m);
  }

  /** The hole list's counter never refuses a free page, since it ignores releases of free pages. */
  lemma {:induction false} HolesUnhindered(m: Mgr, ops: seq<Op>)
    requires Ok(m) && Exact(m) && m.HoleMgr? && FreesInRange(m, ops)
    ensures Unhindered(m, ops)
    decreases |ops|
  {
    hide Apply, Ok, Exact, FreesInRange, BitsOf;
    if ops == [] {
    } else {
      ExactPasses(m);
      if ops[0].Free? {
        FirstInRange(m, ops);
      }
      ExactStays(m, ops[0]);
      RestInRange(m, Apply(m, ops[0]).1, ops);
      HolesUnhindered(Apply(m, ops[0]).1, ops[1..]);
    }
  }

  lemma {:induction false} ExactPasses(m: Mgr)
    requires Ok(m) && Exact(m)
    ensures Bitmap.FirstFit(BitsOf(m), 1, 0).Some? ==> (Used(m) + 1) % TWO_64 <= Pages(m)
  {
    OkBits(m);
    var f := Bitmap.FirstFit(BitsOf(m), 1, 0);
    if f.Some? {
      Bitmap.RunFits(BitsOf(m), f.value, 1);
    }
  }

  /** Fresh managers of the same size agree. */
  lemma {:induction false} FreshAgree(n: nat)
    requires n <= MAX_PAGES
    ensures Agree(BitMgr(Bitmap.State(seq(n, _ => false), 0, 0)),
                  HoleMgr(HoleList.State([HoleList.Seg(0, n, false)], n, 0, 0)))
  {
    var one := [HoleList.Seg(0, n, false)];
    assert one[1..] == [] && HoleList.Chain([], n) && HoleList.Width([]) == 0;
    assert 0 < n ==> HoleList.Chain(one, 0) && HoleList.Width(one) == n;
    assert HoleList.Bits(one) == HoleList.Fill(n, false) + [] == seq(n, _ => false);
  }

  /** For any request size and the same pages taken: where the hole list succeeds the bitmap
      succeeds no higher, so what the bitmap refuses the hole list refuses. */
  lemma {:induction false} BitmapNoWorse(b: Bitmap.State, h: HoleList.State, count: nat)
    requires HoleList.Partition(h.segs, h.nPages) && b.bits == HoleList.Bits(h.segs) && b.used == h.used
    requires Allocate(HoleMgr(h), count).0.Some?
    ensures Allocate(BitMgr(b), count).0.Some?
    ensures Allocate(BitMgr(b), count).0.value <= Allocate(HoleMgr(h), count).0.value
  {
    HoleList.BitsLength(h.segs);
    HoleList.HoleIsRun(h.segs, h.nPages, HoleList.FirstHole(h.segs, count, 0), count);
  }
}
