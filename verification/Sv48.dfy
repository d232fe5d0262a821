/** Constants of the Sv48 layout and the slicing of addresses into table indices.
    Shifts and masks of 64-bit words are written as division and remainder by powers of two. */
module Sv48 {
  const TWO_64: nat := 0x1_0000_0000_0000_0000
  const TWO_48: nat := 0x1_0000_0000_0000
  const TWO_44: nat := 0x1000_0000_0000
  const PAGE_SIZE: nat := 4096
  const ENTRIES: nat := 512

  /** RAM starts at 16 GiB; this is the number of its first frame. */
  const BASE_FRAME: nat := 0x40_0000

  /** At most 2 GiB of RAM. */
  const MAX_PAGES: nat := 0x8_0000

  type u64 = x: int | 0 <= x < 0x1_0000_0000_0000_0000
  type Index = i: nat | i < 512

  datatype Option<+T> = None | Some(value: T)

  /** Sizes are rounded up to whole pages, in 64-bit words. */
  function PagesFor(size: nat): nat {
    ((size + (PAGE_SIZE - 1)) % TWO_64) / PAGE_SIZE
  }

  /** A size rounds to no pages exactly when it is 0 or within a page of 2^64. */
  lemma PagesForNone(size: u64)
    ensures PagesFor(size) == 0 <==> size == 0 || TWO_64 - PAGE_SIZE < size
  {
  }

  /** Virtual pages covered by one entry of a table at level lv. */
  function Span(lv: nat): (s: nat)
    requires lv < 4
    ensures s > 0
  {
    if lv == 0 then 1 else if lv == 1 then 0x200 else if lv == 2 then 0x4_0000 else 0x800_0000
  }

  /** The driver slices the full virtual address. */
  function DriverIndex(vAddr: u64, lv: nat): Index
    requires lv < 4
  {
    (vAddr / (PAGE_SIZE * Span(lv))) % ENTRIES
  }

  /** The MMU slices a virtual page number. */
  function MmuIndex(vPage: nat, lv: nat): Index
    requires lv < 4
  {
    (vPage / Span(lv)) % ENTRIES
  }

  function DriverPath(vAddr: u64): seq<Index> {
    [DriverIndex(vAddr, 3), DriverIndex(vAddr, 2), DriverIndex(vAddr, 1), DriverIndex(vAddr, 0)]
  }

  function MmuPath(vPage: nat): seq<Index> {
    [MmuIndex(vPage, 3), MmuIndex(vPage, 2), MmuIndex(vPage, 1), MmuIndex(vPage, 0)]
  }

  /** Virtual page of an address, its sign-extension bits stripped. */
  function VPage(addr: u64): (v: nat)
    ensures v < 0x10_0000_0000
  {
    (addr % TWO_48) / PAGE_SIZE
  }

  /** The page-aligned address at or below addr. */
  function PageBase(addr: u64): u64 {
    addr / PAGE_SIZE * PAGE_SIZE
  }

  /** Index of the page at addr, counted from the start of RAM in 64-bit words. */
  function PageIndex(addr: nat): nat {
    ((addr - BASE_FRAME * PAGE_SIZE) % TWO_64) / PAGE_SIZE
  }

  /** The numbers of the n frames of RAM. */
  ghost function FrameRange(n: nat): (r: set<nat>)
    ensures forall f :: f in r <==> BASE_FRAME <= f < BASE_FRAME + n
    ensures |r| == n
  {
    if n == 0 then {} else FrameRange(n - 1) + {BASE_FRAME + n - 1}
  }

  function PathPage(path: seq<Index>): nat
    requires |path| == 4
  {
    path[0] as nat * 0x800_0000 + path[1] as nat * 0x4_0000 + path[2] as nat * 0x200 + path[3] as nat
  }

  /** The quotient is the only q with 0 <= a - q * d < d. */
  lemma {:induction false} DivUnique(a: nat, d: nat, q: nat)
    requires d > 0 && q * d <= a < q * d + d
    ensures a / d == q
  {
    var q', r := a / d, a % d;
    assert a == q' * d + r;
    assert (q' - q) * d == q' * d - q * d;
    assert 0 - d < (q' - q) * d < d;
    if q' - q >= 1 {
      MulMonotone(1, q' - q, d);
    } else if q' - q <= -1 {
      MulMonotone(q' - q, -1, d);
    }
  }

  lemma MulMonotone(x: int, y: int, d: nat)
    requires x <= y
    ensures x * d <= y * d
  {
  }

  lemma MulDistributes(x: int, y: int, z: int)
    ensures (x + y) * z == x * z + y * z
  {
  }

  lemma MulAssociates(x: int, y: int, z: int)
    ensures (x * y) * z == x * (y * z)
  {
  }

  lemma DivMod(a: nat, d: nat)
    requires d > 0
    ensures a == (a / d) * d + a % d && a % d < d
  {
  }

  lemma {:induction false} Nested(q: nat, q2: nat, r2: nat, r: nat, b: nat, c: nat, d: nat)
    requires q == q2 * c + r2 && r2 < c && r < b && d == c * b
    ensures q2 * d <= q * b + r < q2 * d + d
  {
    MulDistributes(q2 * c, r2, b);
    MulAssociates(q2, c, b);
    MulMonotone(0, r2, b);
    MulMonotone(r2, c - 1, b);
    MulDistributes(c, -1, b);
  }

  lemma {:induction false} DivDiv(a: nat, b: nat, c: nat, d: nat)
    requires b > 0 && c > 0 && d == b * c
    ensures d > 0 && a / d == (a / b) / c
  {
    MulMonotone(1, b, c);
    var q := a / b;
    DivMod(a, b);
    DivMod(q, c);
    Nested(q, q / c, q % c, a % b, b, c, d);
    DivUnique(a, d, q / c);
  }

  /** Stripping whole multiples of m * d before dividing by d only strips multiples of m. */
  lemma {:induction false} DivOfMod(a: nat, m: nat, d: nat, md: nat)
    requires m > 0 && d > 0 && md == m * d
    ensures md > 0 && (a % md) / d == (a / d) % m
  {
    var q, r := a / d, a % d;
    var q2, r2 := q / m, q % m;
    assert a == q * d + r && q == q2 * m + r2;
    DivDiv(a, d, m, md);
    assert a / md == q2;
    assert a % md == a - q2 * md;
    assert q * d == q2 * md + r2 * d by {
      assert (q2 * m + r2) * d == (q2 * m) * d + r2 * d;
      assert (q2 * m) * d == q2 * (m * d);
    }
    DivUnique(a % md, d, r2);
  }

  /** A virtual page number is determined by its four indices. */
  lemma {:induction false} PathRoundTrip(vPage: nat)
    requires vPage < 0x10_0000_0000
    ensures PathPage(MmuPath(vPage)) == vPage
  {
    DivDiv(vPage, 0x200, 0x200, 0x4_0000);
    DivDiv(vPage, 0x4_0000, 0x200, 0x800_0000);
  }

  /** One level: the driver's slice of an address is the MMU's slice of its page. */
  lemma {:induction false} IndexAgrees(addr: u64, lv: nat)
    requires lv < 4
    ensures DriverIndex(PageBase(addr), lv) == MmuIndex(VPage(addr), lv)
  {
    var n := addr / PAGE_SIZE;
    var s := Span(lv);
    var above := 0x10_0000_0000 / s;
    assert above * s == 0x10_0000_0000 && above % 512 == 0 && above > 0;
    DivDiv(PageBase(addr), PAGE_SIZE, s, PAGE_SIZE * s);
    DivOfMod(addr, 0x10_0000_0000, PAGE_SIZE, TWO_48);
    DivOfMod(n, above, s, 0x10_0000_0000);
    var k := n / s;
    assert VPage(addr) / s == k % above;
    ModMod(k, above / 512, 512, above);
  }

  lemma {:induction false} ModMod(k: nat, m: nat, d: nat, md: nat)
    requires m > 0 && d > 0 && md == m * d
    ensures md > 0 && (k % md) % d == k % d
  {
    DivOfMod(k, m, d, md);
    DivDiv(k, d, m, md);
    var q := k / d;
    var t := k % md;
    assert t / d == q % m;
    assert t == k - (k / md) * md;
    assert q == (q / m) * m + q % m;
    assert q * d == (q / m) * md + (q % m) * d by {
      assert ((q / m) * m + q % m) * d == ((q / m) * m) * d + (q % m) * d;
      assert ((q / m) * m) * d == (q / m) * (m * d);
    }
  }

  /** The indices the driver takes from a faulting address are those the MMU walks with. */
  lemma {:induction false} SlicingAgrees(addr: u64)
    ensures DriverPath(PageBase(addr)) == MmuPath(VPage(addr))
  {
    IndexAgrees(addr, 3);
    IndexAgrees(addr, 2);
    IndexAgrees(addr, 1);
    IndexAgrees(addr, 0);
  }

  /** Two addresses reach the same leaf entry exactly when their pages agree modulo 2^48. */
  lemma {:induction false} SameLeafIffSamePage(a: u64, b: u64)
    ensures DriverPath(PageBase(a)) == DriverPath(PageBase(b)) <==>
            PageBase(a) % TWO_48 == PageBase(b) % TWO_48
  {
    SlicingAgrees(a);
    SlicingAgrees(b);
    PathRoundTrip(VPage(a));
    PathRoundTrip(VPage(b));
    PageModulo(a);
    PageModulo(b);
  }

  lemma {:induction false} PageModulo(a: u64)
    ensures PageBase(a) % TWO_48 == VPage(a) * PAGE_SIZE
  {
    DivOfMod(a, 0x10_0000_0000, PAGE_SIZE, TWO_48);
    var n := a / PAGE_SIZE;
    var q := n / 0x10_0000_0000;
    assert PageBase(a) == q * TWO_48 + VPage(a) * PAGE_SIZE;
    DivUnique(PageBase(a), TWO_48, q);
  }
}
