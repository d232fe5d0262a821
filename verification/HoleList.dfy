/** The hole-list page manager: a doubly linked list of allocated and free stretches of pages. */
module HoleList {
  import opened Sv48
  import Bitmap

  datatype Seg = Seg(page: nat, count: nat, taken: bool)

  /** The list from its root on, the pages managed, and the counters as 64-bit words. */
  datatype State = State(segs: seq<Seg>, nPages: nat, used: u64, peak: u64)

  /** The segments are nonempty and each starts where the one before ends, the first at from. */
  predicate Chain(segs: seq<Seg>, from: nat) {
    segs == [] || (segs[0].page == from && 0 < segs[0].count && Chain(segs[1..], from + segs[0].count))
  }

  /** Pages covered by the segments. */
  function Width(segs: seq<Seg>): nat {
    if segs == [] then 0 else segs[0].count + Width(segs[1..])
  }

  /** The segments cut [0, n) into nonempty stretches, in order. */
  predicate Partition(segs: seq<Seg>, n: nat) {
    segs != [] && Chain(segs, 0) && Width(segs) == n
  }

  /** Index of the first free segment, at or after from, of at least count pages; the length of
      the list when there is none. */
  function FirstHole(segs: seq<Seg>, count: nat, from: nat): (i: nat)
    requires from <= |segs|
    ensures from <= i <= |segs|
    ensures i < |segs| ==> !segs[i].taken && count <= segs[i].count
    ensures forall j :: from <= j < i ==> segs[j].taken || count > segs[j].count
    decreases |segs| - from
  {
    if from == |segs| || (!segs[from].taken && count <= segs[from].count) then from
    else FirstHole(segs, count, from + 1)
  }

  /** Index of the first segment, at or after from, that starts at page; the length of the list
      when there is none. */
  function Find(segs: seq<Seg>, page: nat, from: nat): (i: nat)
    requires from <= |segs|
    ensures from <= i <= |segs|
    ensures i < |segs| ==> segs[i].page == page
    ensures forall j :: from <= j < i ==> segs[j].page != page
    decreases |segs| - from
  {
    if from == |segs| || segs[from].page == page then from else Find(segs, page, from + 1)
  }

  /** Segment i allocated for count pages, the rest of it split off as a free segment. */
  function Carve(segs: seq<Seg>, i: nat, count: nat): seq<Seg>
    requires i < |segs| && count <= segs[i].count
  {
    segs[..i] + [Seg(segs[i].page, count, true)]
    + (if count < segs[i].count then [Seg(segs[i].page + count, segs[i].count - count, false)] else [])
    + segs[i + 1..]
  }

  function Allocate(s: State, count: nat): (Option<nat>, State) {
    if (s.used + count) % TWO_64 > s.nPages then (None, s)
    else
      var i := FirstHole(s.segs, count, 0);
      if i == |s.segs| then (None, s)
      else
        var used := (s.used + count) % TWO_64;
        (Some(s.segs[i].page), s.(segs := Carve(s.segs, i, count), used := used, peak := Bitmap.Max(s.peak, used)))
  }

  predicate MergesLeft(segs: seq<Seg>, i: nat)
    requires i < |segs|
  {
    0 < i && !segs[i - 1].taken
  }

  predicate MergesRight(segs: seq<Seg>, i: nat)
    requires i < |segs|
  {
    !MergesLeft(segs, i) && i + 1 < |segs| && !segs[i + 1].taken
  }

  /** The case the program gets wrong: the right neighbour merged into segment i is the tail. */
  predicate TailMerge(segs: seq<Seg>, i: nat)
    requires i < |segs|
  {
    MergesRight(segs, i) && i + 2 == |segs|
  }

  /** Segments j and j + 1 as one free segment. */
  function Joined(segs: seq<Seg>, j: nat): Seg
    requires j + 1 < |segs|
  {
    Seg(segs[j].page, segs[j].count + segs[j + 1].count, false)
  }

  function Join(segs: seq<Seg>, j: nat): seq<Seg>
    requires j + 1 < |segs|
  {
    segs[..j] + [Joined(segs, j)] + segs[j + 2..]
  }

  /** The list after freeing segment i and merging it with one free neighbour at most. As written
      (unlinkTail false), a merged tail is deleted but stays linked. */
  function Freed(segs: seq<Seg>, i: nat, unlinkTail: bool): seq<Seg>
    requires i < |segs|
  {
    var f := segs[i := segs[i].(taken := false)];
    if MergesLeft(segs, i) then Join(f, i - 1)
    else if TailMerge(segs, i) && !unlinkTail then f[i := Joined(f, i)]
    else if MergesRight(segs, i) then Join(f, i)
    else f
  }

  /** Releasing a page no allocated segment starts at is ignored. */
  function Release(s: State, page: nat, count: nat, unlinkTail: bool): State {
    var i := Find(s.segs, page, 0);
    if i == |s.segs| || !s.segs[i].taken then s
    else s.(segs := Freed(s.segs, i, unlinkTail), used := (s.used - count) % TWO_64)
  }

  /** Pages held by allocated segments. */
  function Total(segs: seq<Seg>): nat {
    if segs == [] then 0 else (if segs[0].taken then segs[0].count else 0) + Total(segs[1..])
  }

  lemma {:induction false} TotalAppend(a: seq<Seg>, b: seq<Seg>)
    ensures Total(a + b) == Total(a) + Total(b)
  {
    if a == [] {
      assert a + b == b;
    } else {
      TotalAppend(a[1..], b);
      assert (a + b)[1..] == a[1..] + b;
    }
  }

  function Fill(count: nat, b: bool): (f: seq<bool>)
    ensures |f| == count && forall k :: 0 <= k < count ==> f[k] == b
  {
    seq(count, _ => b)
  }

  lemma FillAppend(m: nat, n: nat, b: bool)
    ensures Fill(m + n, b) == Fill(m, b) + Fill(n, b)
  {
  }

  /** The bitmap a list stands for: one bit per page of each segment. */
  function Bits(segs: seq<Seg>): (b: seq<bool>) {
    if segs == [] then [] else Fill(segs[0].count, segs[0].taken) + Bits(segs[1..])
  }

  lemma Assoc(a: seq<bool>, b: seq<bool>, c: seq<bool>)
    ensures a + (b + c) == a + b + c
  {
  }

  lemma {:induction false} BitsAppend(a: seq<Seg>, b: seq<Seg>)
    ensures Bits(a + b) == Bits(a) + Bits(b)
  {
    if a == [] {
      assert a + b == b;
    } else {
      BitsAppend(a[1..], b);
      assert (a + b)[1..] == a[1..] + b && (a + b)[0] == a[0];
      Assoc(Fill(a[0].count, a[0].taken), Bits(a[1..]), Bits(b));
    }
  }

  lemma Cons(s: Seg, rest: seq<Seg>)
    ensures Chain([s] + rest, s.page) <==> 0 < s.count && Chain(rest, s.page + s.count)
    ensures Width([s] + rest) == s.count + Width(rest)
    ensures Bits([s] + rest) == Fill(s.count, s.taken) + Bits(rest)
  {
    assert ([s] + rest)[1..] == rest;
  }

  lemma {:induction false} ChainAppend(a: seq<Seg>, b: seq<Seg>, from: nat)
    ensures Chain(a + b, from) <==> Chain(a, from) && Chain(b, from + Width(a))
    ensures Width(a + b) == Width(a) + Width(b)
    decreases |a|
  {
    if a == [] {
      assert a + b == b;
    } else {
      ChainAppend(a[1..], b, from + a[0].count);
      assert (a + b)[1..] == a[1..] + b;
    }
  }

  lemma {:induction false} BitsLength(segs: seq<Seg>)
    ensures |Bits(segs)| == Width(segs)
  {
    if segs == [] {
    } else {
      BitsLength(segs[1..]);
    }
  }

  /** The list cut around a middle part: its shape, width, bits and total are those of the parts. */
  lemma {:induction false} Parts(a: seq<Seg>, m: seq<Seg>, z: seq<Seg>)
    ensures Chain(a + m + z, 0) <==> Chain(a, 0) && Chain(m, Width(a)) && Chain(z, Width(a) + Width(m))
    ensures Width(a + m + z) == Width(a) + Width(m) + Width(z)
    ensures Bits(a + m + z) == Bits(a) + Bits(m) + Bits(z)
    ensures Total(a + m + z) == Total(a) + Total(m) + Total(z)
  {
    ChainAppend(a + m, z, 0);
    ChainAppend(a, m, 0);
    BitsAppend(a + m, z);
    BitsAppend(a, m);
    TotalAppend(a + m, z);
    TotalAppend(a, m);
  }

  /** Where a segment of a partition starts, and that the page is inside memory. */
  lemma {:induction false} SegStart(segs: seq<Seg>, n: nat, i: nat)
    requires Partition(segs, n) && i < |segs|
    ensures segs[i].page == Width(segs[..i]) == |Bits(segs[..i])| && 0 < segs[i].count
    ensures segs[i].page + segs[i].count <= n
    ensures i + 1 == |segs| <==> segs[i].page + segs[i].count == n
    ensures i + 1 < |segs| ==> segs[i + 1].page == segs[i].page + segs[i].count
  {
    var a, m, z := segs[..i], [segs[i]], segs[i + 1..];
    assert segs == a + m + z;
    Parts(a, m, z);
    BitsLength(a);
  }

  /** Page k of segment i is allocated exactly when the segment is. */
  lemma {:induction false} BitOfSeg(segs: seq<Seg>, n: nat, i: nat, k: nat)
    requires Partition(segs, n) && i < |segs|
    requires segs[i].page <= k < segs[i].page + segs[i].count
    ensures |Bits(segs)| == n && k < n && Bits(segs)[k] == segs[i].taken
  {
    var a, m, z := segs[..i], [segs[i]], segs[i + 1..];
    assert segs == a + m + z;
    Parts(a, m, z);
    SegStart(segs, n, i);
    BitsLength(segs);
    assert Bits(m) == Fill(segs[i].count, segs[i].taken);
  }

  /** Every page lies in some segment. */
  lemma {:induction false} SegOfPage(segs: seq<Seg>, from: nat, k: nat) returns (i: nat)
    requires Chain(segs, from) && from <= k < from + Width(segs)
    ensures i < |segs| && segs[i].page <= k < segs[i].page + segs[i].count
    decreases |segs|
  {
    if k < from + segs[0].count {
      i := 0;
    } else {
      var j := SegOfPage(segs[1..], from + segs[0].count, k);
      i := j + 1;
    }
  }

  /** Segments start in increasing order. */
  lemma {:induction false} PagesIncrease(segs: seq<Seg>, n: nat, i: nat, j: nat)
    requires Partition(segs, n) && i < j < |segs|
    ensures segs[i].page + segs[i].count <= segs[j].page
  {
    SegStart(segs, n, i);
    SegStart(segs, n, j);
    assert segs[..j] == segs[..i] + [segs[i]] + segs[i + 1..j];
    Parts(segs[..i], [segs[i]], segs[i + 1..j]);
  }

  /** Overwriting a whole uniform stretch in the middle of a bitmap. */
  lemma {:induction false} MarkMiddle(a: seq<bool>, m: seq<bool>, z: seq<bool>, b: bool)
    ensures Bitmap.Marked(a + m + z, |a|, |m|, b) == a + Fill(|m|, b) + z
  {
  }

  /** Flipping a segment's flag overwrites exactly its pages. */
  lemma {:induction false} FlipKeeps(segs: seq<Seg>, n: nat, i: nat, b: bool)
    requires Partition(segs, n) && i < |segs| && segs[i].taken != b
    ensures var f := segs[i := segs[i].(taken := b)];
      && Partition(f, n)
      && Bits(f) == Bitmap.Marked(Bits(segs), segs[i].page, segs[i].count, b)
      && Total(f) == if b then Total(segs) + segs[i].count else Total(segs) - segs[i].count
  {
    var a, z := segs[..i], segs[i + 1..];
    var s := segs[i].(taken := b);
    assert segs == a + [segs[i]] + z && segs[i := s] == a + [s] + z;
    Parts(a, [segs[i]], z);
    Parts(a, [s], z);
    SegStart(segs, n, i);
    assert Bits([segs[i]]) == Fill(s.count, !b) && Bits([s]) == Fill(s.count, b);
    MarkMiddle(Bits(a), Bits([segs[i]]), Bits(z), b);
  }

  /** Joining two free neighbours, or splitting a free segment in two, changes no page. */
  lemma {:induction false} JoinKeeps(segs: seq<Seg>, n: nat, j: nat)
    requires j + 1 < |segs| && !segs[j].taken && !segs[j + 1].taken
    requires 0 < segs[j].count && 0 < segs[j + 1].count && segs[j + 1].page == segs[j].page + segs[j].count
    ensures Partition(Join(segs, j), n) <==> Partition(segs, n)
    ensures Bits(Join(segs, j)) == Bits(segs) && Total(Join(segs, j)) == Total(segs)
  {
    var a, z := segs[..j], segs[j + 2..];
    var l, r := segs[j], segs[j + 1];
    assert segs == a + ([l] + [r]) + z;
    Parts(a, [l] + [r], z);
    Parts(a, [Joined(segs, j)], z);
    ChainAppend([l], [r], Width(a));
    BitsAppend([l], [r]);
    TotalAppend([l], [r]);
    FillAppend(l.count, r.count, false);
    assert Bits([l]) == Fill(l.count, false) && Bits([r]) == Fill(r.count, false);
  }

  /** Carving inserts the rest as a new segment and overwrites segment i. */
  lemma CarveInPlace(segs: seq<Seg>, i: nat, count: nat)
    requires i < |segs| && count <= segs[i].count
    ensures var taken := Seg(segs[i].page, count, true);
      if count == segs[i].count then segs[i := taken] == Carve(segs, i, count)
      else (segs[..i + 1] + [Seg(segs[i].page + count, segs[i].count - count, false)] + segs[i + 1..])[i := taken]
           == Carve(segs, i, count)
  {
    var m := Seg(segs[i].page + count, segs[i].count - count, false);
    var taken := Seg(segs[i].page, count, true);
    assert segs[..i + 1] + [m] + segs[i + 1..] == segs[..i] + [segs[i]] + ([m] + segs[i + 1..]);
    assert segs[i := taken] == segs[..i] + [taken] + segs[i + 1..];
  }

  /** Carving keeps the partition, marks exactly the pages handed out, and counts them. */
  lemma {:induction false} CarveKeeps(segs: seq<Seg>, n: nat, i: nat, count: nat)
    requires Partition(segs, n) && i < |segs| && 0 < count <= segs[i].count && !segs[i].taken
    ensures Partition(Carve(segs, i, count), n)
    ensures Bits(Carve(segs, i, count)) == Bitmap.Marked(Bits(segs), segs[i].page, count, true)
    ensures Total(Carve(segs, i, count)) == Total(segs) + count
  {
    var s := segs[i];
    if count == s.count {
      FlipKeeps(segs, n, i, true);
      assert Carve(segs, i, count) == segs[i := s.(taken := true)];
    } else {
      var split := segs[..i] + [Seg(s.page, count, false), Seg(s.page + count, s.count - count, false)] + segs[i + 1..];
      assert Join(split, i) == segs;
      JoinKeeps(split, n, i);
      FlipKeeps(split, n, i, true);
      assert Carve(segs, i, count) == split[i := split[i].(taken := true)];
    }
  }

  /** With a merged tail unlinked, freeing keeps the partition and clears exactly the segment's pages. */
  lemma {:induction false} FreedKeeps(segs: seq<Seg>, n: nat, i: nat)
    requires Partition(segs, n) && i < |segs| && segs[i].taken
    ensures Partition(Freed(segs, i, true), n)
    ensures Bits(Freed(segs, i, true)) == Bitmap.Marked(Bits(segs), segs[i].page, segs[i].count, false)
    ensures Total(Freed(segs, i, true)) == Total(segs) - segs[i].count
  {
    FlipKeeps(segs, n, i, false);
    var f := segs[i := segs[i].(taken := false)];
    if MergesLeft(segs, i) {
      SegStart(f, n, i);
      SegStart(f, n, i - 1);
      JoinKeeps(f, n, i - 1);
    } else if MergesRight(segs, i) {
      SegStart(f, n, i);
      SegStart(f, n, i + 1);
      JoinKeeps(f, n, i);
    }
  }

  /** As written, freeing keeps the partition exactly when it does not merge a tail. */
  lemma {:induction false} AsWrittenKeepsIff(segs: seq<Seg>, n: nat, i: nat)
    requires Partition(segs, n) && i < |segs| && segs[i].taken
    ensures Partition(Freed(segs, i, false), n) <==> !TailMerge(segs, i)
  {
    FreedKeeps(segs, n, i);
    if TailMerge(segs, i) {
      var f := segs[i := segs[i].(taken := false)];
      var g := Freed(segs, i, false);
      FlipKeeps(segs, n, i, false);
      SegStart(f, n, i + 1);
      if Partition(g, n) {
        SegStart(g, n, i);
        SegStart(f, n, i);
      }
    }
  }

  /** What is left over then is the deleted node, still listed behind the segment that took its pages. */
  lemma AsWrittenKeepsTail(segs: seq<Seg>, i: nat)
    requires i < |segs| && segs[i].taken
    ensures Freed(segs, i, false) ==
            Freed(segs, i, true) + if TailMerge(segs, i) then [segs[|segs| - 1]] else []
  {
    if TailMerge(segs, i) {
      var f := segs[i := segs[i].(taken := false)];
      assert f[i := Joined(f, i)] == segs[..i] + [Joined(f, i)] + [segs[|segs| - 1]];
      assert Join(f, i) == segs[..i] + [Joined(f, i)];
    }
  }

  lemma {:induction false} TotalBound(segs: seq<Seg>)
    ensures Total(segs) <= Width(segs)
  {
    if segs == [] {
    } else {
      TotalBound(segs[1..]);
    }
  }

  lemma {:induction false} TotalOne(segs: seq<Seg>, i: nat)
    requires i < |segs| && segs[i].taken
    ensures segs[i].count <= Total(segs)
    decreases |segs|
  {
    if i == 0 {
    } else {
      TotalOne(segs[1..], i - 1);
    }
  }

  /** The list cuts memory into nonempty stretches and the counter is what the allocated ones hold. */
  predicate Good(s: State) {
    s.nPages <= MAX_PAGES && Partition(s.segs, s.nPages) && s.used == Total(s.segs)
  }

  /** Some segment is free exactly when the allocated ones do not cover memory. */
  lemma {:induction false} FullIff(segs: seq<Seg>, from: nat)
    requires Chain(segs, from)
    ensures Total(segs) == Width(segs) <==> forall i :: 0 <= i < |segs| ==> segs[i].taken
    decreases |segs|
  {
    if segs == [] {
    } else {
      TotalBound(segs[1..]);
      FullIff(segs[1..], from + segs[0].count);
      assert segs == [segs[0]] + segs[1..];
    }
  }

  /** A request for no pages is granted exactly while a page is free. */
  lemma {:induction false} NoneGrantedIff(s: State)
    requires Good(s)
    ensures Allocate(s, 0).0.Some? <==> s.used != s.nPages
  {
    hide Bits, Carve;
    TotalBound(s.segs);
    FullIff(s.segs, 0);
  }

  /** A request keeps that, except a request for no pages while a page is free: it leaves a segment
      without pages. */
  lemma {:induction false} AllocateKeepsIff(s: State, count: u64)
    requires Good(s)
    ensures Good(Allocate(s, count).1) <==> 0 < count || s.used == s.nPages
  {
    if count == 0 {
      NoneGrantedIff(s);
    }
    TotalBound(s.segs);
    var i := FirstHole(s.segs, count, 0);
    if Allocate(s, count).0.Some? {
      if 0 < count {
        CarveKeeps(s.segs, s.nPages, i, count);
        TotalBound(Carve(s.segs, i, count));
      } else {
        EmptySegment(s.segs, s.nPages, i);
      }
    }
    hide Bits, Total, Carve, Partition;
  }

  lemma {:induction false} EmptySegment(segs: seq<Seg>, n: nat, i: nat)
    requires i < |segs|
    ensures !Partition(Carve(segs, i, 0), n)
  {
    if Partition(Carve(segs, i, 0), n) {
      SegStart(Carve(segs, i, 0), n, i);
      assert false;
    }
  }

  /** A release keeps it exactly when it is ignored or gives back the whole segment. */
  lemma {:induction false} ReleaseKeepsIff(s: State, page: nat, count: u64)
    requires Good(s)
    ensures var i := Find(s.segs, page, 0);
      Good(Release(s, page, count, true)) <==> i == |s.segs| || !s.segs[i].taken || count == s.segs[i].count
  {
    var i := Find(s.segs, page, 0);
    if i < |s.segs| && s.segs[i].taken {
      FreedKeeps(s.segs, s.nPages, i);
      TotalOne(s.segs, i);
      TotalBound(s.segs);
    }
  }

  /* ----- adjacent holes ----- */

  /** No two free segments are next to each other. */
  predicate Apart(segs: seq<Seg>) {
    forall i :: 0 <= i && i + 1 < |segs| ==> segs[i].taken || segs[i + 1].taken
  }

  /** Requests leave holes apart. */
  lemma {:induction false} CarveKeepsApart(segs: seq<Seg>, i: nat, count: nat)
    requires Apart(segs) && i < |segs| && count <= segs[i].count && !segs[i].taken
    ensures Apart(Carve(segs, i, count))
  {
    var c := Carve(segs, i, count);
    var d := |c| - |segs|;
    forall j | 0 <= j && j + 1 < |c|
      ensures c[j].taken || c[j + 1].taken
    {
      if j + 1 < i {
        assert c[j] == segs[j] && c[j + 1] == segs[j + 1];
      } else if j > i {
        assert c[j + 1] == segs[j + 1 - d];
        assert j > i + d ==> c[j] == segs[j - d];
      }
    }
  }

  /** Freeing a segment leaves holes apart exactly when it did not lie between two holes. */
  lemma {:induction false} FreedApartIff(segs: seq<Seg>, i: nat)
    requires Apart(segs) && i < |segs| && segs[i].taken
    ensures Apart(Freed(segs, i, true)) <==>
            !(0 < i && !segs[i - 1].taken && i + 1 < |segs| && !segs[i + 1].taken)
  {
    var f := Freed(segs, i, true);
    if MergesLeft(segs, i) {
      assert forall j :: 0 <= j < i - 1 ==> f[j] == segs[j];
      assert forall j :: i <= j < |f| ==> f[j] == segs[j + 1];
      assert !f[i - 1].taken && (i >= 2 ==> segs[i - 2].taken);
      if i + 1 < |segs| && !segs[i + 1].taken {
        assert !f[i].taken;
      }
    } else if MergesRight(segs, i) {
      assert forall j :: 0 <= j < i ==> f[j] == segs[j];
      assert forall j :: i < j < |f| ==> f[j] == segs[j + 1];
      assert i + 2 < |segs| ==> segs[i + 2].taken;
    }
  }

  /** When holes are apart, every run of free pages lies in one hole. */
  lemma {:induction false} RunInHole(segs: seq<Seg>, n: nat, start: nat, count: nat) returns (i: nat)
    requires Partition(segs, n) && Apart(segs) && Bitmap.FreeRun(Bits(segs), start, count)
    ensures i < |segs| && !segs[i].taken && segs[i].page <= start && start + count <= segs[i].page + segs[i].count
  {
    BitsLength(segs);
    i := SegOfPage(segs, 0, start);
    BitOfSeg(segs, n, i, start);
    SegStart(segs, n, i);
    var end := segs[i].page + segs[i].count;
    if end < start + count {
      SegStart(segs, n, i + 1);
      BitOfSeg(segs, n, i + 1, end);
    }
  }

  /** A free segment is a run of free pages. */
  lemma {:induction false} HoleIsRun(segs: seq<Seg>, n: nat, i: nat, count: nat)
    requires Partition(segs, n) && i < |segs| && !segs[i].taken && count <= segs[i].count
    ensures Bitmap.FreeRun(Bits(segs), segs[i].page, count)
  {
    var p := segs[i].page;
    BitsLength(segs);
    SegStart(segs, n, i);
    BitOfSeg(segs, n, i, p);
    forall k | p <= k < p + count
      ensures !Bits(segs)[k]
    {
      BitOfSeg(segs, n, i, k);
    }
  }

  /** When holes are apart, the first hole that is large enough starts at the first fit. */
  lemma {:induction false} FirstHoleIsFirstFit(segs: seq<Seg>, n: nat, count: nat)
    requires Partition(segs, n) && Apart(segs)
    ensures var i := FirstHole(segs, count, 0);
      Bitmap.FirstFit(Bits(segs), count, 0) == if i == |segs| then None else Some(segs[i].page)
  {
    var i, f := FirstHole(segs, count, 0), Bitmap.FirstFit(Bits(segs), count, 0);
    if f.Some? {
      var j := RunInHole(segs, n, f.value, count);
      if i < j {
        PagesIncrease(segs, n, i, j);
      }
    }
    if i < |segs| {
      HoleIsRun(segs, n, i, count);
    }
  }

  /** Segments i to j are all free. */
  predicate Stretch(segs: seq<Seg>, i: nat, j: nat) {
    i <= j < |segs| && forall k :: i <= k <= j ==> !segs[k].taken
  }

  /** The pages of segments i to j. */
  function Reach(segs: seq<Seg>, i: nat, j: nat): int
    requires i <= j < |segs|
  {
    segs[j].page + segs[j].count - segs[i].page
  }

  /** Segment k is a hole of at least count pages. */
  predicate HoleFits(segs: seq<Seg>, k: nat, count: int) {
    k < |segs| && !segs[k].taken && count <= segs[k].count
  }

  /** No stretch of adjacent holes is wider than the widest hole. */
  ghost predicate WidestIsOneHole(segs: seq<Seg>) {
    forall i: nat, j: nat :: Stretch(segs, i, j) ==> exists k: nat :: HoleFits(segs, k, Reach(segs, i, j))
  }

  lemma {:induction false} StretchIsRun(segs: seq<Seg>, n: nat, i: nat, j: nat)
    requires Partition(segs, n) && Stretch(segs, i, j)
    ensures 0 < Reach(segs, i, j) && Bitmap.FreeRun(Bits(segs), segs[i].page, Reach(segs, i, j))
  {
    BitsLength(segs);
    SegStart(segs, n, i);
    SegStart(segs, n, j);
    if i < j {
      PagesIncrease(segs, n, i, j);
    }
    BitOfSeg(segs, n, i, segs[i].page);
    forall k | segs[i].page <= k < segs[j].page + segs[j].count
      ensures !Bits(segs)[k]
    {
      var q := SegBetween(segs, n, i, j, k);
      BitOfSeg(segs, n, q, k);
    }
  }

  /** The segment of a page between two segments lies between them. */
  lemma {:induction false} SegBetween(segs: seq<Seg>, n: nat, i: nat, j: nat, k: nat) returns (q: nat)
    requires Partition(segs, n) && i <= j < |segs| && segs[i].page <= k < segs[j].page + segs[j].count
    ensures i <= q <= j && segs[q].page <= k < segs[q].page + segs[q].count
  {
    SegStart(segs, n, j);
    q := SegOfPage(segs, 0, k);
    if q < i {
      PagesIncrease(segs, n, q, i);
    } else if j < q {
      PagesIncrease(segs, n, j, q);
    }
  }

  /** Every run of free pages lies in a stretch of adjacent holes. */
  lemma {:induction false} RunInStretch(segs: seq<Seg>, n: nat, start: nat, count: nat) returns (i: nat, j: nat)
    requires Partition(segs, n) && Bitmap.FreeRun(Bits(segs), start, count) && 0 < count
    ensures Stretch(segs, i, j) && count <= Reach(segs, i, j)
  {
    BitsLength(segs);
    i := SegOfPage(segs, 0, start);
    j := SegOfPage(segs, 0, start + count - 1);
    if j < i {
      PagesIncrease(segs, n, j, i);
    }
    forall k | i <= k <= j
      ensures !segs[k].taken
    {
      SegStart(segs, n, k);
      if i < k {
        PagesIncrease(segs, n, i, k);
      }
      if k < j {
        PagesIncrease(segs, n, k, j);
      }
      BitOfSeg(segs, n, k, if start < segs[k].page then segs[k].page else start);
    }
  }

  /** Memory of n pages of which the first k were allocated one by one. */
  function Filled(k: nat, n: nat): (segs: seq<Seg>)
    requires k < n
  {
    seq(k, i requires 0 <= i < k => Seg(i, 1, true)) + [Seg(k, n - k, false)]
  }

  lemma {:induction false} FilledPartition(k: nat, n: nat)
    requires k < n
    ensures Partition(Filled(k, n), n)
  {
    if k == 0 {
      Cons(Seg(0, n, false), []);
      assert Filled(0, n) == [Seg(0, n, false)] + [];
    } else {
      FilledPartition(k - 1, n);
      CarveKeeps(Filled(k - 1, n), n, k - 1, 1);
      FilledGrows(k - 1, n);
    }
  }

  lemma {:induction false} FilledGrows(k: nat, n: nat)
    requires k + 1 < n
    ensures FirstHole(Filled(k, n), 1, 0) == k && Carve(Filled(k, n), k, 1) == Filled(k + 1, n)
  {
  }

  /** Allocating one page from it takes the next. */
  lemma {:induction false} FilledByAllocation(k: nat, n: nat, peak: u64)
    requires k + 1 < n <= MAX_PAGES && peak <= k
    ensures Allocate(State(Filled(k, n), n, k, peak), 1) == (Some(k), State(Filled(k + 1, n), n, k + 1, k + 1))
  {
    FilledGrows(k, n);
  }

  /** The wrong case is met at once: whatever the number of pages allocated one by one from fresh
      memory, releasing the last of them, as written, leaves no partition. */
  lemma {:induction false} LastReleaseBreaks(k: nat, n: nat)
    requires 0 < k < n
    ensures Partition(Filled(k, n), n) && Filled(k, n)[k - 1] == Seg(k - 1, 1, true)
    ensures TailMerge(Filled(k, n), k - 1) && !Partition(Freed(Filled(k, n), k - 1, false), n)
  {
    FilledPartition(k, n);
    AsWrittenKeepsIff(Filled(k, n), n, k - 1);
  }

  class HoleNode {
    var page: nat
    var count: nat
    var taken: bool
    var prev: HoleNode?
    var next: HoleNode?

    constructor (page: nat, count: nat)
      ensures this.page == page && this.count == count && !taken && prev == null && next == null
    {
      this.page := page;
      this.count := count;
      taken := false;
      prev := null;
      next := null;
    }
  }

  ghost predicate Distinct(ns: seq<HoleNode>) {
    forall i, j :: 0 <= i < j < |ns| ==> ns[i] != ns[j]
  }

  /** Node i is linked both ways to its neighbours. */
  ghost predicate LinkedAt(ns: seq<HoleNode>, i: nat)
    requires i < |ns|
    reads ns`next, ns`prev
  {
    && ns[i].next == (if i + 1 < |ns| then ns[i + 1] else null)
    && ns[i].prev == (if i == 0 then null else ns[i - 1])
  }

  ghost predicate WellLinked(ns: seq<HoleNode>)
    reads ns`next, ns`prev
  {
    && ns != [] && Distinct(ns)
    && forall i {:trigger LinkedAt(ns, i)} :: 0 <= i < |ns| ==> LinkedAt(ns, i)
  }

  /** Node i holds segment i. */
  ghost predicate Holds(ns: seq<HoleNode>, segs: seq<Seg>)
    reads ns`page, ns`count, ns`taken
  {
    && |ns| == |segs|
    && forall i :: 0 <= i < |ns| ==> segs[i] == Seg(ns[i].page, ns[i].count, ns[i].taken)
  }

  lemma DistinctInserted(ns: seq<HoleNode>, i: nat, m: HoleNode)
    requires Distinct(ns) && i < |ns| && m !in ns
    ensures Distinct(ns[..i + 1] + [m] + ns[i + 1..])
    ensures forall x :: x in ns[..i + 1] + [m] + ns[i + 1..] ==> x == m || x in ns
  {
  }

  lemma DistinctRemoved(ns: seq<HoleNode>, i: nat)
    requires Distinct(ns) && i < |ns|
    ensures Distinct(ns[..i] + ns[i + 1..])
    ensures forall x :: x in ns[..i] + ns[i + 1..] ==> x in ns
  {
  }

  class PhysMemManagerHole {
    const nPages: nat

    /** Whether merging the tail also unlinks it; the program does not. */
    const unlinkTail: bool

    var root: HoleNode
    var nAllocatedPages: u64
    var maxAllocatedPages: u64

    /** The nodes reached from root by next pointers, in order. */
    ghost var nodes: seq<HoleNode>

    /** What the nodes hold. */
    ghost var segs: seq<Seg>

    ghost predicate Valid()
      reads this, nodes
    {
      && nPages <= MAX_PAGES
      && WellLinked(nodes) && root == nodes[0]
      && Holds(nodes, segs)
    }

    ghost function Model(): State
      reads this
    {
      State(segs, nPages, nAllocatedPages, maxAllocatedPages)
    }

    constructor (memorySize: nat, unlinkTail: bool)
      requires memorySize <= MAX_PAGES * PAGE_SIZE
      ensures Valid() && fresh(nodes)
      ensures nPages == memorySize / PAGE_SIZE && this.unlinkTail == unlinkTail
      ensures Model() == State([Seg(0, nPages, false)], nPages, 0, 0)
      ensures PAGE_SIZE <= memorySize ==> Good(Model())
    {
      nPages := memorySize / PAGE_SIZE;
      this.unlinkTail := unlinkTail;
      nAllocatedPages := 0;
      maxAllocatedPages := 0;
      var n := new HoleNode(0, memorySize / PAGE_SIZE);
      root := n;
      nodes := [n];
      segs := [Seg(0, memorySize / PAGE_SIZE, false)];
    }

    /** The first free node of at least count pages. */
    method FindHole(count: nat) returns (n: HoleNode?, ghost i: nat)
      requires Valid()
      ensures i == FirstHole(segs, count, 0) && n == if i < |nodes| then nodes[i] else null
    {
      n, i := root, 0;
      while n != null && (n.taken || count > n.count)
        invariant i <= |nodes| && n == if i < |nodes| then nodes[i] else null
        invariant FirstHole(segs, count, 0) == FirstHole(segs, count, i)
        decreases |nodes| - i
      {
        assert LinkedAt(nodes, i);
        n := n.next;
        i := i + 1;
      }
    }

    method FindPage(page: nat) returns (n: HoleNode?, ghost i: nat)
      requires Valid()
      ensures i == Find(segs, page, 0) && n == if i < |nodes| then nodes[i] else null
    {
      n, i := root, 0;
      while n != null && n.page != page
        invariant i <= |nodes| && n == if i < |nodes| then nodes[i] else null
        invariant Find(segs, page, 0) == Find(segs, page, i)
        decreases |nodes| - i
      {
        assert LinkedAt(nodes, i);
        n := n.next;
        i := i + 1;
      }
    }

    /** Links the unlinked node m after n. */
    method InsertAfter(n: HoleNode, ghost i: nat, m: HoleNode)
      requires Valid() && i < |nodes| && nodes[i] == n && m !in nodes && m.next == null
      modifies this`nodes, this`segs, nodes`prev, nodes`next, m`next, m`prev
      ensures Valid() && nodes == old(nodes)[..i + 1] + [m] + old(nodes)[i + 1..]
      ensures segs == old(segs)[..i + 1] + [Seg(m.page, m.count, m.taken)] + old(segs)[i + 1..]
    {
      assert LinkedAt(nodes, i) && (i + 1 < |nodes| ==> LinkedAt(nodes, i + 1));
      if n.next != null {
        m.next := n.next;
        n.next.prev := m;
      }
      n.next := m;
      m.prev := n;
      ghost var was := nodes;
      nodes := was[..i + 1] + [m] + was[i + 1..];
      segs := segs[..i + 1] + [Seg(m.page, m.count, m.taken)] + segs[i + 1..];
      DistinctInserted(was, i, m);
      forall j | 0 <= j < |nodes|
        ensures LinkedAt(nodes, j) && segs[j] == Seg(nodes[j].page, nodes[j].count, nodes[j].taken)
      {
        if j <= i {
          assert old(LinkedAt(was, j)) && nodes[j] == was[j];
        } else if j > i + 1 {
          assert old(LinkedAt(was, j - 1)) && nodes[j] == was[j - 1];
        }
      }
      assert WellLinked(nodes) && Holds(nodes, segs);
    }

    /** Overwrites the size and flag of node i. */
    method Resize(n: HoleNode, ghost i: nat, count: nat, taken: bool)
      requires Valid() && i < |nodes| && nodes[i] == n
      modifies this`segs, n`count, n`taken
      ensures Valid() && segs == old(segs)[i := Seg(n.page, count, taken)]
    {
      n.taken := taken;
      n.count := count;
      segs := segs[i := Seg(n.page, count, taken)];
    }

    /** Allocates the first count pages of free node n. */
    method TakeNode(n: HoleNode, ghost i: nat, count: nat)
      requires Valid() && i < |nodes| && nodes[i] == n && count <= n.count
      modifies this`nodes, this`segs, nodes
      ensures Valid() && forall x :: x in nodes ==> x in old(nodes) || fresh(x)
      ensures segs == Carve(old(segs), i, count) && n.page == old(segs)[i].page
    {
      hide Carve, WellLinked;
      ghost var goal := Carve(segs, i, count);
      CarveInPlace(segs, i, count);
      if count < n.count {
        var m := new HoleNode(n.page + count, n.count - count);
        InsertAfter(n, i, m);
        assert nodes[i] == n;
      }
      assert segs[i := Seg(n.page, count, true)] == goal;
      Resize(n, i, count, true);
    }

    /** First-fit allocation; the result is an address. */
    method AllocatePages(count: u64) returns (r: Option<nat>)
      requires Valid()
      modifies this, nodes
      ensures Valid() && forall x :: x in nodes ==> x in old(nodes) || fresh(x)
      ensures Model() == Allocate(old(Model()), count).1
      ensures r == match Allocate(old(Model()), count).0
                   case None => None
                   case Some(start) => Some((BASE_FRAME + start) * PAGE_SIZE)
    {
      hide Carve, FirstHole, WellLinked;
      if (nAllocatedPages + count) % TWO_64 > nPages {
        return None;
      }
      ghost var i: nat;
      var n: HoleNode?;
      n, i := FindHole(count);
      if n == null {
        return None;
      }
      TakeNode(n, i, count);
      nAllocatedPages := (nAllocatedPages + count) % TWO_64;
      maxAllocatedPages := Bitmap.Max(maxAllocatedPages, nAllocatedPages);
      r := Some((BASE_FRAME + n.page) * PAGE_SIZE);
    }

    /** Unlinks node i, giving its pages to the node before it. */
    method Absorb(n: HoleNode, ghost i: nat)
      requires Valid() && 0 < i < |nodes| && nodes[i] == n && !n.taken && !nodes[i - 1].taken
      modifies this`nodes, this`segs, nodes`prev, nodes`next, nodes`count
      ensures Valid() && nodes == old(nodes)[..i] + old(nodes)[i + 1..]
      ensures segs == Join(old(segs), i - 1)
    {
      assert LinkedAt(nodes, i) && LinkedAt(nodes, i - 1) && (i + 1 < |nodes| ==> LinkedAt(nodes, i + 1));
      n.prev.count := n.prev.count + n.count;
      n.prev.next := n.next;
      if n.next != null {
        n.next.prev := n.prev;
      }
      ghost var was := nodes;
      nodes := was[..i] + was[i + 1..];
      segs := Join(segs, i - 1);
      forall j | 0 <= j < |nodes|
        ensures segs[j] == Seg(nodes[j].page, nodes[j].count, nodes[j].taken)
      {
        var k := if j < i then j else j + 1;
        assert nodes[j] == was[k];
      }
      assert Holds(nodes, segs);
      hide Holds, Join;
      DistinctRemoved(was, i);
      forall j | 0 <= j < |nodes|
        ensures LinkedAt(nodes, j)
      {
        if j < i {
          assert old(LinkedAt(was, j)) && nodes[j] == was[j];
        } else {
          assert old(LinkedAt(was, j + 1)) && nodes[j] == was[j + 1];
        }
      }
    }

    /** Gives n the pages of the node after it. As written, the deleted node stays linked when it
        is the tail. */
    method MergeRight(n: HoleNode, ghost i: nat)
      requires Valid() && i + 1 < |nodes| && nodes[i] == n && !n.taken && !nodes[i + 1].taken
      modifies this`nodes, this`segs, nodes
      ensures Valid() && forall x :: x in nodes ==> x in old(nodes)
      ensures segs == if i + 2 == |old(segs)| && !unlinkTail then old(segs)[i := Joined(old(segs), i)]
                      else Join(old(segs), i)
    {
      assert LinkedAt(nodes, i) && LinkedAt(nodes, i + 1);
      var m := n.next;
      if m.next != null || unlinkTail {
        Absorb(m, i + 1);
      } else {
        Resize(n, i, n.count + m.count, false);
      }
    }

    /** Frees node n and merges it with one free neighbour at most. */
    method FreeNode(n: HoleNode, ghost i: nat)
      requires Valid() && i < |nodes| && nodes[i] == n
      modifies this`nodes, this`segs, nodes
      ensures Valid() && forall x :: x in nodes ==> x in old(nodes)
      ensures segs == Freed(old(segs), i, unlinkTail)
    {
      assert LinkedAt(nodes, i);
      Resize(n, i, n.count, false);
      if n.prev != null && !n.prev.taken {
        Absorb(n, i);
      } else if n.next != null && !n.next.taken {
        MergeRight(n, i);
      }
    }

    method ReleasePages(addr: nat, count: u64)
      requires Valid()
      modifies this, nodes
      ensures Valid() && forall x :: x in nodes ==> x in old(nodes)
      ensures Model() == Release(old(Model()), PageIndex(addr), count, unlinkTail)
    {
      var page := PageIndex(addr);
      ghost var i: nat;
      var n: HoleNode?;
      n, i := FindPage(page);
      if n == null || !n.taken {
        return;
      }
      FreeNode(n, i);
      nAllocatedPages := (nAllocatedPages - count) % TWO_64;
    }

    predicate AllReleased(): (b: bool)
      reads this
      ensures b <==> Model().used == 0
    {
      nAllocatedPages == 0
    }
  }
}
