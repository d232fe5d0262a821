/** Requests of any size to either page manager: what sequences of them keep, and exactly when the two
    managers can be told apart. */
module Requests {
  import opened Sv48
  import opened Managers
  import Bitmap
  import HoleList

  /** A request for pages, or a release of count pages from addr on. */
  datatype Request = Ask(count: u64) | Give(addr: nat, count: u64)

  ghost function Serve(m: Mgr, r: Request): (Option<nat>, Mgr) {
    match r
    case Ask(count) => Allocate(m, count)
    case Give(addr, count) => (None, Release(m, addr, count))
  }

  ghost function Replies(m: Mgr, rs: seq<Request>): seq<Option<nat>>
    decreases |rs|
  {
    if rs == [] then [] else [Serve(m, rs[0]).0] + Replies(Serve(m, rs[0]).1, rs[1..])
  }

  ghost function Left(m: Mgr, rs: seq<Request>): Mgr
    decreases |rs|
  {
    if rs == [] then m else Left(Serve(m, rs[0]).1, rs[1..])
  }

  /* ----- what any sequence of requests keeps ----- */

  /** The counter is the number of allocated pages, and a hole list partitions memory. */
  ghost predicate Intact(m: Mgr) {
    match m
    case BitMgr(b) => Bitmap.Counted(b)
    case HoleMgr(h) => HoleList.Good(h)
  }

  /** A request for at least one page, or with no page free; a release the hole list ignores or of exactly one of
      its segments, or, for the bitmap, of pages that are all allocated. */
  ghost predicate Proper(m: Mgr, r: Request) {
    match (m, r)
    case (BitMgr(b), Ask(_)) => true
    case (BitMgr(b), Give(addr, count)) => Bitmap.AllTaken(b.bits, PageIndex(addr), count)
    case (HoleMgr(h), Ask(count)) => 0 < count || h.used == h.nPages
    case (HoleMgr(h), Give(addr, count)) =>
      var i := HoleList.Find(h.segs, PageIndex(addr), 0);
      i == |h.segs| || !h.segs[i].taken || count == h.segs[i].count
  }

  /** The bitmap cannot be asked to release pages outside memory. */
  predicate InMemory(m: Mgr, r: Request) {
    m.BitMgr? && r.Give? ==> PageIndex(r.addr) + r.count <= Pages(m)
  }

  /** One request keeps a manager intact exactly when it is proper. */
  lemma {:induction false} IntactIff(m: Mgr, r: Request)
    requires Intact(m) && InMemory(m, r)
    ensures Intact(Serve(m, r).1) <==> Proper(m, r)
  {
    match m {
      case BitMgr(b) =>
        match r {
          case Ask(count) => Bitmap.AllocateCounts(b, count);
          case Give(addr, count) => Bitmap.ReleaseCountsIff(b, PageIndex(addr), count);
        }
      case HoleMgr(h) =>
        match r {
          case Ask(count) => HoleList.AllocateKeepsIff(h, count);
          case Give(addr, count) => HoleList.ReleaseKeepsIff(h, PageIndex(addr), count);
        }
    }
  }

  ghost predicate AllProper(m: Mgr, rs: seq<Request>)
    decreases |rs|
  {
    rs == [] || (Proper(m, rs[0]) && AllProper(Serve(m, rs[0]).1, rs[1..]))
  }

  /** Requests of any size and matching releases, in any number, keep a manager intact. */
  lemma {:induction false} IntactOverRuns(m: Mgr, rs: seq<Request>)
    requires Intact(m) && AllProper(m, rs)
    ensures Intact(Left(m, rs))
    decreases |rs|
  {
    if rs == [] {
    } else {
      IntactIff(m, rs[0]);
      IntactOverRuns(Serve(m, rs[0]).1, rs[1..]);
    }
  }

  /** A manager of n pages with nothing allocated. */
  function Fresh(n: nat, useHoles: bool): Mgr {
    if useHoles then HoleMgr(HoleList.State([HoleList.Seg(0, n, false)], n, 0, 0))
    else BitMgr(Bitmap.State(seq(n, _ => false), 0, 0))
  }

  lemma {:induction false} FreshIntact(n: nat, useHoles: bool)
    requires 0 < n <= MAX_PAGES
    ensures Intact(Fresh(n, useHoles))
  {
    FreshAgree(n);
    Bitmap.CountUniform(seq(n, _ => false), false);
    var one := [HoleList.Seg(0, n, false)];
    assert one[1..] == [] && HoleList.Total([]) == 0;
    assert HoleList.Total(one) == HoleList.Total(one[1..]);
  }

  /** From fresh memory on, whatever is asked and properly given back, in any number and any size: the
      counter of either manager is the number of allocated pages, and the hole list partitions memory. */
  lemma {:induction false} IntactFromFresh(n: nat, useHoles: bool, rs: seq<Request>)
    requires 0 < n <= MAX_PAGES && AllProper(Fresh(n, useHoles), rs)
    ensures Intact(Left(Fresh(n, useHoles), rs))
  {
    FreshIntact(n, useHoles);
    IntactOverRuns(Fresh(n, useHoles), rs);
  }

  /** The first request of memory of any size that breaks the hole list: for no pages, or for the size
      that rounds to none. */
  lemma {:induction false} NothingBreaks(n: nat)
    requires 0 < n <= MAX_PAGES
    ensures PagesFor(0xffff_ffff_ffff_ffff) == 0
    ensures !Proper(Fresh(n, true), Ask(0)) && Serve(Fresh(n, true), Ask(0)).0 == Some(FrameAddr(0))
    ensures !Intact(Serve(Fresh(n, true), Ask(PagesFor(0xffff_ffff_ffff_ffff))).1)
  {
    FreshIntact(n, true);
    PagesForNone(0xffff_ffff_ffff_ffff);
    IntactIff(Fresh(n, true), Ask(0));
  }

  /* ----- telling the managers apart ----- */

  /** A bitmap and a hole list that hold the same pages, both intact. */
  ghost predicate SamePages(b: Bitmap.State, h: HoleList.State) {
    Bitmap.Counted(b) && HoleList.Good(h) && b.bits == HoleList.Bits(h.segs) && b.used == h.used
  }

  lemma {:induction false} SamePagesSize(b: Bitmap.State, h: HoleList.State)
    requires SamePages(b, h)
    ensures |b.bits| == h.nPages
  {
    HoleList.BitsLength(h.segs);
  }

  /** Requests that ask for at least one page each. */
  predicate OnlyAsks(rs: seq<Request>) {
    forall i :: 0 <= i < |rs| ==> rs[i].Ask? && 0 < rs[i].count
  }

  /** While holes are apart, a request is answered alike, and leaves holes apart. */
  lemma {:induction false} AskAlike(b: Bitmap.State, h: HoleList.State, count: u64)
    requires SamePages(b, h) && HoleList.Apart(h.segs) && 0 < count
    ensures var (p, b') := Bitmap.Allocate(b, count); var (q, h') := HoleList.Allocate(h, count);
      p == q && SamePages(b', h') && HoleList.Apart(h'.segs)
  {
    SamePagesSize(b, h);
    HoleList.FirstHoleIsFirstFit(h.segs, h.nPages, count);
    Bitmap.AllocateCounts(b, count);
    HoleList.AllocateKeepsIff(h, count);
    var i := HoleList.FirstHole(h.segs, count, 0);
    if HoleList.Allocate(h, count).0.Some? {
      HoleList.CarveKeeps(h.segs, h.nPages, i, count);
      HoleList.CarveKeepsApart(h.segs, i, count);
    }
    hide HoleList.Partition, HoleList.Total, HoleList.Carve, HoleList.Bits, HoleList.Apart, HoleList.FirstHole,
        Bitmap.FirstFit, Bitmap.Marked, Bitmap.CountSet, Bitmap.Counted, HoleList.Good;
  }

  lemma {:induction false} ApartAlike(b: Bitmap.State, h: HoleList.State, rs: seq<Request>)
    requires SamePages(b, h) && HoleList.Apart(h.segs) && OnlyAsks(rs)
    ensures Replies(BitMgr(b), rs) == Replies(HoleMgr(h), rs)
    decreases |rs|
  {
    if rs == [] {
    } else {
      var count := rs[0].count;
      AskAlike(b, h, count);
      ApartAlike(Bitmap.Allocate(b, count).1, HoleList.Allocate(h, count).1, rs[1..]);
    }
  }

  /** Segments i and i + 1 are both free. */
  predicate Touching(segs: seq<HoleList.Seg>, i: nat) {
    i + 1 < |segs| && !segs[i].taken && !segs[i + 1].taken
  }

  /** With two adjacent holes first in the list of holes, a request for both is answered apart. */
  lemma {:induction false} TouchingFirst(b: Bitmap.State, h: HoleList.State, i: nat) returns (count: u64)
    requires SamePages(b, h) && Touching(h.segs, i) && HoleList.FirstHole(h.segs, 1, 0) == i
    ensures 0 < count && Bitmap.Allocate(b, count).0 != HoleList.Allocate(h, count).0
  {
    SamePagesSize(b, h);
    var segs, n := h.segs, h.nPages;
    HoleList.SegStart(segs, n, i);
    HoleList.SegStart(segs, n, i + 1);
    HoleList.StretchIsRun(segs, n, i, i + 1);
    count := HoleList.Reach(segs, i, i + 1);
    Bitmap.AllocateIffRun(b, count);
    var k := HoleList.FirstHole(segs, count, 0);
    if k < |segs| {
      HoleList.SegStart(segs, n, k);
      if i < k {
        HoleList.PagesIncrease(segs, n, i, k);
      }
    }
  }

  /** The first hole is taken page by page until the adjacent holes are the first. */
  lemma {:induction false} TouchingTold(b: Bitmap.State, h: HoleList.State, i: nat) returns (rs: seq<Request>)
    requires SamePages(b, h) && Touching(h.segs, i)
    ensures OnlyAsks(rs) && Replies(BitMgr(b), rs) != Replies(HoleMgr(h), rs)
    decreases h.nPages - h.used
  {
    var j := HoleList.FirstHole(h.segs, 1, 0);
    HoleList.SegStart(h.segs, h.nPages, i);
    if j == i {
      var count := TouchingFirst(b, h, i);
      rs := [Ask(count)];
      assert Replies(BitMgr(b), rs)[0] == Serve(BitMgr(b), Ask(count)).0 == AddrOf(Bitmap.Allocate(b, count).0);
      assert Replies(HoleMgr(h), rs)[0] == Serve(HoleMgr(h), Ask(count)).0 == AddrOf(HoleList.Allocate(h, count).0);
    } else {
      var b', h' := Bitmap.Allocate(b, 1).1, HoleList.Allocate(h, 1).1;
      var i' := TouchingStays(b, h, i, j);
      var rest := TouchingTold(b', h', i');
      rs := [Ask(1)] + rest;
      assert rs[1..] == rest;
      assert Replies(BitMgr(b), rs)[1..] == Replies(BitMgr(b'), rest);
      assert Replies(HoleMgr(h), rs)[1..] == Replies(HoleMgr(h'), rest);
    }
  }

  /** A page carved off before two adjacent holes leaves them adjacent. */
  lemma TouchingCarved(segs: seq<HoleList.Seg>, i: nat, j: nat) returns (i': nat)
    requires Touching(segs, i) && j < i && !segs[j].taken && 0 < segs[j].count
    ensures Touching(HoleList.Carve(segs, j, 1), i')
  {
    var c := HoleList.Carve(segs, j, 1);
    i' := i + |c| - |segs|;
    assert c[i'] == segs[i] && c[i' + 1] == segs[i + 1];
  }

  lemma {:induction false} TouchingStays(b: Bitmap.State, h: HoleList.State, i: nat, j: nat) returns (i': nat)
    requires SamePages(b, h) && Touching(h.segs, i) && j == HoleList.FirstHole(h.segs, 1, 0) && j < i
    ensures var (p, b') := Bitmap.Allocate(b, 1); var (q, h') := HoleList.Allocate(h, 1);
      p == q && SamePages(b', h') && Touching(h'.segs, i') && h'.nPages == h.nPages && h.used < h'.used <= h.nPages
  {
    SamePagesSize(b, h);
    FirstHoleIsLowest(h);
    HoleList.SegStart(h.segs, h.nPages, j);
    HoleList.CarveKeeps(h.segs, h.nPages, j, 1);
    HoleList.TotalBound(HoleList.Carve(h.segs, j, 1));
    Bitmap.AllocateCounts(b, 1);
    i' := TouchingCarved(h.segs, i, j);
    hide HoleList.Partition, HoleList.Total, HoleList.Carve, HoleList.Bits, HoleList.FirstHole, Bitmap.FirstFit,
        Bitmap.Marked, Bitmap.CountSet, Bitmap.Counted;
  }

  /** Whatever is asked from now on, the managers answer alike: exactly when no two holes are adjacent. */
  lemma {:induction false} AlikeIffApart(b: Bitmap.State, h: HoleList.State)
    requires SamePages(b, h)
    ensures (forall rs :: OnlyAsks(rs) ==> Replies(BitMgr(b), rs) == Replies(HoleMgr(h), rs)) <==>
            HoleList.Apart(h.segs)
  {
    if HoleList.Apart(h.segs) {
      forall rs | OnlyAsks(rs)
        ensures Replies(BitMgr(b), rs) == Replies(HoleMgr(h), rs)
      {
        ApartAlike(b, h, rs);
      }
    } else {
      var i: nat :| i + 1 < |h.segs| && !h.segs[i].taken && !h.segs[i + 1].taken;
      var rs := TouchingTold(b, h, i);
    }
  }

  ghost predicate Grants(m: Mgr, count: u64) {
    Allocate(m, count).0.Some?
  }

  lemma {:induction false} HoleGrantsIff(h: HoleList.State, count: u64)
    requires HoleList.Good(h) && 0 < count
    ensures Grants(HoleMgr(h), count) <==> exists k: nat :: HoleList.HoleFits(h.segs, k, count)
  {
    var i := HoleList.FirstHole(h.segs, count, 0);
    if k: nat :| HoleList.HoleFits(h.segs, k, count) {
      HoleList.HoleIsRun(h.segs, h.nPages, i, count);
      HoleRunFits(h, i, count);
    }
    if Grants(HoleMgr(h), count) {
      assert HoleList.HoleFits(h.segs, i, count);
    }
  }

  lemma {:induction false} HoleRunFits(h: HoleList.State, i: nat, count: nat)
    requires HoleList.Good(h) && i < |h.segs| && !h.segs[i].taken && 0 < count <= h.segs[i].count
    ensures h.used + count <= h.nPages
  {
    HoleList.CarveKeeps(h.segs, h.nPages, i, count);
    HoleList.TotalBound(HoleList.Carve(h.segs, i, count));
  }

  /** Both managers grant the same sizes next: exactly when no stretch of adjacent holes is wider than the
      widest hole. Adjacent holes alone need not show at once. */
  lemma {:induction false} SizesAlikeIff(b: Bitmap.State, h: HoleList.State)
    requires SamePages(b, h)
    ensures (forall count: u64 :: 0 < count ==> (Grants(BitMgr(b), count) <==> Grants(HoleMgr(h), count))) <==>
            HoleList.WidestIsOneHole(h.segs)
  {
    if forall count: u64 :: 0 < count ==> (Grants(BitMgr(b), count) <==> Grants(HoleMgr(h), count)) {
      forall i: nat, j: nat | HoleList.Stretch(h.segs, i, j)
        ensures exists k: nat :: HoleList.HoleFits(h.segs, k, HoleList.Reach(h.segs, i, j))
      {
        SamePagesSize(b, h);
        HoleList.StretchIsRun(h.segs, h.nPages, i, j);
        var count: u64 := HoleList.Reach(h.segs, i, j);
        Bitmap.AllocateIffRun(b, count);
        assert Grants(BitMgr(b), count);
        HoleGrantsIff(h, count);
      }
    }
    if HoleList.WidestIsOneHole(h.segs) {
      forall count: u64 | 0 < count
        ensures Grants(BitMgr(b), count) <==> Grants(HoleMgr(h), count)
      {
        SizeAlike(b, h, count);
      }
    }
  }

  lemma {:induction false} SizeAlike(b: Bitmap.State, h: HoleList.State, count: u64)
    requires SamePages(b, h) && HoleList.WidestIsOneHole(h.segs) && 0 < count
    ensures Grants(BitMgr(b), count) <==> Grants(HoleMgr(h), count)
  {
    HoleGrantsIff(h, count);
    if Grants(HoleMgr(h), count) {
      BitmapNoWorse(b, h, count);
    }
    if Grants(BitMgr(b), count) {
      var start := Bitmap.FirstFit(b.bits, count, 0).value;
      var i, j := HoleList.RunInStretch(h.segs, h.nPages, start, count);
      var k: nat :| HoleList.HoleFits(h.segs, k, HoleList.Reach(h.segs, i, j));
      assert HoleList.HoleFits(h.segs, k, count);
    }
  }

  /** Adjacent holes next to a hole as wide as both together: every size is granted alike. */
  lemma {:induction false} AdjacentMayNotShow()
    ensures var segs := [HoleList.Seg(0, 1, false), HoleList.Seg(1, 1, false), HoleList.Seg(2, 1, true),
                         HoleList.Seg(3, 2, false)];
      HoleList.Good(HoleList.State(segs, 5, 1, 1)) && !HoleList.Apart(segs) && HoleList.WidestIsOneHole(segs)
  {
    var a, b, c := HoleList.Seg(0, 1, false), HoleList.Seg(1, 1, false), HoleList.Seg(2, 1, true);
    var d := HoleList.Seg(3, 2, false);
    var segs := [a, b, c, d];
    HoleList.Cons(d, []);
    HoleList.Cons(c, [d]);
    HoleList.Cons(b, [c] + [d]);
    HoleList.Cons(a, [b] + ([c] + [d]));
    HoleList.TotalAppend([a, b], [c, d]);
    HoleList.TotalAppend([a], [b]);
    HoleList.TotalAppend([c], [d]);
    assert segs == [a, b] + [c, d] == [a] + ([b] + ([c] + [d])) && [d] == [d] + [];
    assert [a, b] == [a] + [b] && [c, d] == [c] + [d];
    assert !segs[0].taken && !segs[1].taken && segs[2].taken;
    forall i: nat, j: nat | HoleList.Stretch(segs, i, j)
      ensures exists k: nat :: HoleList.HoleFits(segs, k, HoleList.Reach(segs, i, j))
    {
      assert !(i <= 2 <= j);
      assert HoleList.HoleFits(segs, 3, HoleList.Reach(segs, i, j));
    }
  }

  /* ----- reached from fresh memory ----- */

  /** A hole list that has pages 0 and 1 as one hole and the rest as another, all of it free. */
  function AllFreeInTwo(n: nat): (segs: seq<HoleList.Seg>)
    requires 2 < n
  {
    [HoleList.Seg(0, 2, false), HoleList.Seg(2, n - 2, false)]
  }

  function FrameAddr(page: nat): nat { (BASE_FRAME + page) * PAGE_SIZE }

  /** Three pages taken one by one; then the first, the third and the second are given back. */
  function ThreeTakenAndReturned(): seq<Request> {
    [Ask(1), Ask(1), Ask(1), Give(FrameAddr(0), 1), Give(FrameAddr(2), 1), Give(FrameAddr(1), 1)]
  }

  /** However much memory there is: once all of it is given back in that order, the hole list is left with
      two adjacent holes and refuses a request for all of memory, which the bitmap grants. */
  lemma {:induction false} AdjacentHolesStayApart(n: nat)
    requires 4 <= n <= MAX_PAGES
    ensures var b, h := Left(Fresh(n, false), ThreeTakenAndReturned()), Left(Fresh(n, true), ThreeTakenAndReturned());
      && h == HoleMgr(HoleList.State(AllFreeInTwo(n), n, 0, 3)) && !HoleList.Apart(AllFreeInTwo(n))
      && Allocate(h, n).0 == None && Allocate(b, n).0 == Some(FrameAddr(0))
  {
    HoleSide(n);
    TwoHolesRefuse(n);
    BitmapSide(n);
    var two := AllFreeInTwo(n);
    assert !two[0].taken && !two[1].taken;
  }

  lemma {:induction false} SixSteps(m: Mgr, rs: seq<Request>)
    requires |rs| == 6
    ensures var m1 := Serve(m, rs[0]).1; var m2 := Serve(m1, rs[1]).1; var m3 := Serve(m2, rs[2]).1;
      var m4 := Serve(m3, rs[3]).1; var m5 := Serve(m4, rs[4]).1;
      Left(m, rs) == Serve(m5, rs[5]).1
  {
    hide Serve;
    var m1 := Serve(m, rs[0]).1;
    var m2 := Serve(m1, rs[1]).1;
    var m3 := Serve(m2, rs[2]).1;
    var m4 := Serve(m3, rs[3]).1;
    var m5 := Serve(m4, rs[4]).1;
    var m6 := Serve(m5, rs[5]).1;
    assert rs[5..] == [rs[5]] && rs[5..][1..] == [];
    assert Left(m5, rs[5..]) == Left(m6, []) == m6;
    assert rs[4..][1..] == rs[5..] && Left(m4, rs[4..]) == Left(m5, rs[5..]);
    assert rs[3..][1..] == rs[4..] && Left(m3, rs[3..]) == Left(m4, rs[4..]);
    assert rs[2..][1..] == rs[3..] && Left(m2, rs[2..]) == Left(m3, rs[3..]);
    assert rs[1..][1..] == rs[2..] && Left(m1, rs[1..]) == Left(m2, rs[2..]);
  }

  lemma {:induction false} TwoHolesRefuse(n: nat)
    requires 4 <= n <= MAX_PAGES
    ensures Allocate(HoleMgr(HoleList.State(AllFreeInTwo(n), n, 0, 3)), n).0 == None
  {
    assert HoleList.FirstHole(AllFreeInTwo(n), n, 0) == 2;
  }

  lemma {:induction false} OneTaking(k: nat, next: nat, n: nat)
    requires next == k + 1 && next < n <= MAX_PAGES
    ensures Serve(HoleMgr(HoleList.State(HoleList.Filled(k, n), n, k, k)), Ask(1)).1 ==
            HoleMgr(HoleList.State(HoleList.Filled(next, n), n, next, next))
  {
    HoleList.FilledByAllocation(k, n, k);
  }

  lemma FilledEnds(n: nat)
    requires 4 <= n
    ensures HoleList.Filled(0, n) == [HoleList.Seg(0, n, false)]
    ensures HoleList.Filled(3, n) == [HoleList.Seg(0, 1, true), HoleList.Seg(1, 1, true), HoleList.Seg(2, 1, true),
                                      HoleList.Seg(3, n - 3, false)]
  {
  }

  /** The hole list after three pages are taken, and after they are given back. */
  lemma {:induction false} HoleSide(n: nat)
    requires 4 <= n <= MAX_PAGES
    ensures Left(HoleMgr(HoleList.State([HoleList.Seg(0, n, false)], n, 0, 0)), ThreeTakenAndReturned()) ==
            HoleMgr(HoleList.State(AllFreeInTwo(n), n, 0, 3))
  {
    FilledEnds(n);
    hide Serve, HoleList.Filled, AllFreeInTwo, FrameAddr;
    OneTaking(0, 1, n);
    OneTaking(1, 2, n);
    OneTaking(2, 3, n);
    ThreeReleases(n, HoleList.Seg(0, 1, true), HoleList.Seg(1, 1, true), HoleList.Seg(2, 1, true),
        HoleList.Seg(3, n - 3, false));
    SixSteps(HoleMgr(HoleList.State(HoleList.Filled(0, n), n, 0, 0)), ThreeTakenAndReturned());
  }

  lemma {:induction false} ThreeReleases(n: nat, a: HoleList.Seg, b: HoleList.Seg, c: HoleList.Seg, rest: HoleList.Seg)
    requires 4 <= n <= MAX_PAGES && rest == HoleList.Seg(3, n - 3, false)
    requires a == HoleList.Seg(0, 1, true) && b == HoleList.Seg(1, 1, true) && c == HoleList.Seg(2, 1, true)
    ensures var m3 := HoleMgr(HoleList.State([a, b, c, rest], n, 3, 3));
      var m4 := Serve(m3, Give(FrameAddr(0), 1)).1; var m5 := Serve(m4, Give(FrameAddr(2), 1)).1;
      Serve(m5, Give(FrameAddr(1), 1)).1 == HoleMgr(HoleList.State(AllFreeInTwo(n), n, 0, 3))
  {
    var a', bc' := HoleList.Seg(0, 1, false), HoleList.Seg(2, n - 2, false);
    assert HoleList.Freed([a, b, c, rest], 0, true) == [a', b, c, rest];
    assert HoleList.Freed([a', b, c, rest], 2, true) == [a', b, bc'];
    assert HoleList.Freed([a', b, bc'], 1, true) == AllFreeInTwo(n);
    hide HoleList.Freed, Serve;
    Released(n, [a, b, c, rest], 0, 3, 0, [a', b, c, rest]);
    Released(n, [a', b, c, rest], 2, 2, 2, [a', b, bc']);
    Released(n, [a', b, bc'], 1, 1, 1, AllFreeInTwo(n));
  }

  /** Releasing the page at which segment i starts. */
  lemma {:induction false} Released(n: nat, segs: seq<HoleList.Seg>, page: nat, used: u64, i: nat,
          segs': seq<HoleList.Seg>)
    requires n <= MAX_PAGES && page < n && i < |segs| && segs[i].page == page && segs[i].taken && 0 < used
    requires forall j :: 0 <= j < i ==> segs[j].page != page
    requires segs' == HoleList.Freed(segs, i, true)
    ensures Serve(HoleMgr(HoleList.State(segs, n, used, 3)), Give(FrameAddr(page), 1)).1 ==
            HoleMgr(HoleList.State(segs', n, used - 1, 3))
  {
    assert PageIndex(FrameAddr(page)) == page;
    assert HoleList.Find(segs, page, 0) == i;
  }

  lemma {:induction false} BitmapSide(n: nat)
    requires 4 <= n <= MAX_PAGES
    ensures var b := Left(BitMgr(Bitmap.State(seq(n, _ => false), 0, 0)), ThreeTakenAndReturned());
      Allocate(b, n).0 == Some(FrameAddr(0))
  {
    var none := seq(n, _ => false);
    var b0 := Bitmap.State(none, 0, 0);
    var b1 := TakeNext(b0, 0);
    var b2 := TakeNext(b1, 1);
    var b3 := TakeNext(b2, 2);
    var b4, b5 := Bitmap.Release(b3, 0, 1), Bitmap.Release(Bitmap.Release(b3, 0, 1), 2, 1);
    var b6 := Bitmap.Release(b5, 1, 1);
    assert PageIndex(FrameAddr(0)) == 0 && PageIndex(FrameAddr(1)) == 1 && PageIndex(FrameAddr(2)) == 2;
    SixSteps(BitMgr(b0), ThreeTakenAndReturned());
    assert Left(BitMgr(b0), ThreeTakenAndReturned()) == BitMgr(b6);
    assert b6.bits == none && b6.used == 0;
    assert Bitmap.FreeRun(none, 0, n);
  }

  /** The bitmap of which the first k pages are taken takes the next. */
  lemma {:induction false} TakeNext(b: Bitmap.State, k: nat) returns (b': Bitmap.State)
    requires k < |b.bits| <= MAX_PAGES && b.used == k && forall j :: 0 <= j < |b.bits| ==> (b.bits[j] <==> j < k)
    ensures Serve(BitMgr(b), Ask(1)) == (Some(FrameAddr(k)), BitMgr(b')) && b' == Bitmap.Allocate(b, 1).1
    ensures |b'.bits| == |b.bits| && b'.used == k + 1
    ensures forall j :: 0 <= j < |b.bits| ==> (b'.bits[j] <==> j < k + 1)
  {
    b' := Bitmap.Allocate(b, 1).1;
    assert Bitmap.FreeRun(b.bits, k, 1);
    assert Bitmap.FirstFit(b.bits, 1, 0) == Some(k);
  }
}
