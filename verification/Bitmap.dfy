/** The bitmap page manager: a first-fit scan, and what it finds. */
module Bitmap {
  import opened Sv48

  /** One bit per page, and the counters as 64-bit words. */
  datatype State = State(bits: seq<bool>, used: u64, peak: u64)

  /** A free page with count free pages from it on. A run of no pages still starts at a free page. */
  ghost predicate FreeRun(bits: seq<bool>, start: nat, count: nat) {
    && start < |bits| && start + count <= |bits| && !bits[start]
    && forall k :: start <= k < start + count ==> !bits[k]
  }

  /** The lowest start, at or after from, of a run of count free pages. */
  ghost function FirstFit(bits: seq<bool>, count: nat, from: nat): (r: Option<nat>)
    ensures r.Some? ==> from <= r.value && FreeRun(bits, r.value, count)
    ensures r.Some? ==> forall s :: from <= s < r.value ==> !FreeRun(bits, s, count)
    ensures r.None? ==> forall s :: from <= s ==> !FreeRun(bits, s, count)
    decreases if from <= |bits| then |bits| + 1 - from else 0
  {
    if from + count > |bits| then None
    else if FreeRun(bits, from, count) then Some(from)
    else FirstFit(bits, count, from + 1)
  }

  ghost function Marked(bits: seq<bool>, start: nat, count: nat, b: bool): seq<bool> {
    seq(|bits|, k requires 0 <= k < |bits| => if start <= k < start + count then b else bits[k])
  }

  function Max(a: u64, b: u64): u64 { if a < b then b else a }

  /** Start page of the run handed out, if any, and the state afterwards. */
  ghost function Allocate(s: State, count: nat): (Option<nat>, State) {
    if (s.used + count) % TWO_64 > |s.bits| then (None, s)
    else
      match FirstFit(s.bits, count, 0)
      case None => (None, s)
      case Some(start) =>
        var used := (s.used + count) % TWO_64;
        (Some(start), State(Marked(s.bits, start, count, true), used, Max(s.peak, used)))
  }

  ghost function Release(s: State, index: nat, count: nat): State {
    s.(bits := Marked(s.bits, index, count, false), used := (s.used - count) % TWO_64)
  }

  function CountSet(bits: seq<bool>): nat {
    if bits == [] then 0 else (if bits[0] then 1 else 0) + CountSet(bits[1..])
  }

  lemma {:induction false} CountAppend(a: seq<bool>, b: seq<bool>)
    ensures CountSet(a + b) == CountSet(a) + CountSet(b)
  {
    if a == [] {
      assert a + b == b;
    } else {
      CountAppend(a[1..], b);
      assert (a + b)[1..] == a[1..] + b;
    }
  }

  lemma {:induction false} CountUniform(bits: seq<bool>, b: bool)
    requires forall k :: 0 <= k < |bits| ==> bits[k] == b
    ensures CountSet(bits) == if b then |bits| else 0
  {
    if bits == [] {
    } else {
      CountUniform(bits[1..], b);
    }
  }

  lemma {:induction false} CountBound(bits: seq<bool>)
    ensures CountSet(bits) <= |bits|
  {
    if bits == [] {
    } else {
      CountBound(bits[1..]);
    }
  }

  /** A free run and the set bits fit in memory together. */
  lemma {:induction false} RunFits(bits: seq<bool>, start: nat, count: nat)
    requires FreeRun(bits, start, count)
    ensures CountSet(bits) + count <= |bits|
    ensures CountSet(Marked(bits, start, count, true)) == CountSet(bits) + count
  {
    var a, m, z := bits[..start], bits[start..start + count], bits[start + count..];
    assert bits == a + m + z;
    CountAppend(a + m, z);
    CountAppend(a, m);
    CountUniform(m, false);
    CountBound(a);
    CountBound(z);
    var m' := Marked(bits, start, count, true)[start..start + count];
    assert Marked(bits, start, count, true) == a + m' + z;
    CountAppend(a + m', z);
    CountAppend(a, m');
    CountUniform(m', true);
  }

  /** Clearing a stretch takes its set bits off the count. */
  lemma {:induction false} CountCleared(bits: seq<bool>, i: nat, j: nat)
    requires i <= j <= |bits|
    ensures CountSet(Marked(bits, i, j - i, false)) == CountSet(bits) - CountSet(bits[i..j])
    ensures CountSet(bits[i..j]) <= CountSet(bits)
  {
    var a, m, z := bits[..i], bits[i..j], bits[j..];
    var m' := seq(j - i, _ => false);
    assert bits == a + m + z && Marked(bits, i, j - i, false) == a + m' + z;
    CountAppend(a + m, z);
    CountAppend(a, m);
    CountAppend(a + m', z);
    CountAppend(a, m');
    CountUniform(m', false);
  }

  /** All bits of a stretch are set exactly when it has as many set bits as bits. */
  lemma {:induction false} CountAll(bits: seq<bool>)
    ensures CountSet(bits) == |bits| <==> forall k :: 0 <= k < |bits| ==> bits[k]
  {
    if bits == [] {
    } else {
      CountAll(bits[1..]);
      CountBound(bits[1..]);
      assert forall k :: 1 <= k < |bits| ==> bits[k] == bits[1..][k - 1];
    }
  }

  /** The counter is the number of set bits. */
  predicate Counted(s: State) {
    |s.bits| <= MAX_PAGES && s.used == CountSet(s.bits)
  }

  /** The pages from index on that a release names, all of them allocated. */
  ghost predicate AllTaken(bits: seq<bool>, index: nat, count: nat) {
    index + count <= |bits| && forall k :: index <= k < index + count ==> bits[k]
  }

  /** Any request keeps the counter the number of set bits. */
  lemma {:induction false} AllocateCounts(s: State, count: u64)
    requires Counted(s)
    ensures Counted(Allocate(s, count).1)
  {
    CountBound(s.bits);
    var f := FirstFit(s.bits, count, 0);
    if f.Some? {
      RunFits(s.bits, f.value, count);
    }
  }

  /** A release of pages of memory keeps it so exactly when every one of them is allocated. */
  lemma {:induction false} ReleaseCountsIff(s: State, index: nat, count: u64)
    requires Counted(s) && index + count <= |s.bits|
    ensures Counted(Release(s, index, count)) <==> AllTaken(s.bits, index, count)
  {
    var j := index + count;
    var m := s.bits[index..j];
    CountCleared(s.bits, index, j);
    CountBound(s.bits);
    CountBound(m);
    CountAll(m);
    forall k | index <= k < j
      ensures s.bits[k] == m[k - index]
    {
    }
    forall k | 0 <= k < |m|
      ensures m[k] == s.bits[index + k]
    {
    }
  }

  /** While the counter is the number of set bits, the scan succeeds exactly when a run exists:
      the upfront check rejects nothing that could be satisfied. */
  lemma {:induction false} AllocateIffRun(s: State, count: u64)
    requires Counted(s)
    ensures Allocate(s, count).0.Some? <==> exists r :: FreeRun(s.bits, r, count)
  {
    CountBound(s.bits);
    if r :| FreeRun(s.bits, r, count) {
      RunFits(s.bits, r, count);
    }
    var f := FirstFit(s.bits, count, 0);
    if f.Some? {
      RunFits(s.bits, f.value, count);
    }
  }

  class PhysMemManagerBitmap {
    const nPages: nat
    const taken: array<bool>
    var nAllocatedPages: u64
    var maxAllocatedPages: u64

    ghost predicate Valid()
    {
      taken.Length == nPages <= MAX_PAGES
    }

    ghost function Model(): State
      reads this, taken
    {
      State(taken[..], nAllocatedPages, maxAllocatedPages)
    }

    constructor (memorySize: nat)
      requires memorySize <= MAX_PAGES * PAGE_SIZE
      ensures Valid() && fresh(taken)
      ensures nPages == memorySize / PAGE_SIZE
      ensures Model() == State(seq(nPages, _ => false), 0, 0)
    {
      nPages := memorySize / PAGE_SIZE;
      taken := new bool[memorySize / PAGE_SIZE](_ => false);
      nAllocatedPages := 0;
      maxAllocatedPages := 0;
    }

    /** Marks the pages of a free run. */
    method MarkTaken(start: nat, count: nat)
      requires Valid() && start + count <= nPages
      modifies taken
      ensures taken[..] == Marked(old(taken[..]), start, count, true)
    {
      ghost var was := taken[..];
      for i := start to start + count
        invariant forall k :: 0 <= k < nPages ==> taken[k] == (start <= k < i || was[k])
      {
        taken[i] := true;
      }
      assert taken[..] == Marked(was, start, count, true);
    }

    /** First-fit allocation; the result is an address. */
    method AllocatePages(count: u64) returns (r: Option<nat>)
      requires Valid()
      modifies this, taken
      ensures Model() == Allocate(old(Model()), count).1
      ensures r == match Allocate(old(Model()), count).0
                   case None => None
                   case Some(start) => Some((BASE_FRAME + start) * PAGE_SIZE)
    {
      hide Marked;
      ghost var was := taken[..];
      if (nAllocatedPages + count) % TWO_64 > nPages {
        return None;
      }
      var index := 0;
      while index < nPages
        invariant index <= nPages + 1
        invariant taken[..] == was && unchanged(this)
        invariant forall s :: 0 <= s < index ==> !FreeRun(was, s, count)
      {
        if taken[index] {
          index := index + 1;
          continue;
        }
        var start := index;
        var end := (start + count) % TWO_64;
        while index < end && index < nPages
          invariant start <= index <= nPages && (index > start ==> index <= end)
          invariant forall k :: start <= k < index ==> !was[k]
        {
          if taken[index] {
            break;
          }
          index := index + 1;
        }
        if index != end {
          forall s | start <= s <= index
            ensures !FreeRun(was, s, count)
          {
            if index < nPages && index < start + count {
              assert end < start || was[index];
            }
          }
          index := index + 1;
          continue;
        }
        assert FreeRun(was, start, count) && FirstFit(was, count, 0) == Some(start);
        MarkTaken(start, count);
        hide FreeRun, FirstFit;
        nAllocatedPages := (nAllocatedPages + count) % TWO_64;
        maxAllocatedPages := Max(maxAllocatedPages, nAllocatedPages);
        return Some((BASE_FRAME + start) * PAGE_SIZE);
      }
      return None;
    }

    method ReleasePages(addr: nat, count: u64)
      requires Valid() && PageIndex(addr) + count <= nPages
      modifies this, taken
      ensures Model() == Release(old(Model()), PageIndex(addr), count)
    {
      var index := PageIndex(addr);
      ghost var was := taken[..];
      for i := index to index + count
        invariant unchanged(this)
        invariant forall k :: 0 <= k < nPages ==> taken[k] == (!(index <= k < i) && was[k])
      {
        taken[i] := false;
      }
      assert taken[..] == Marked(was, index, count, false);
      nAllocatedPages := (nAllocatedPages - count) % TWO_64;
    }

    predicate AllReleased(): (b: bool)
      reads this, taken
      ensures b <==> Model().used == 0
    {
      nAllocatedPages == 0
    }
  }
}
