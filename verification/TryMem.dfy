/** write_areas and check_areas: memory is filled from a seed, and later compared
    with what the same seed gives. */
module TryMem {
  import opened Md5
  import opened Md5Streams
  import Bits

  /** memory_area_t */
  datatype Area = Area(offset: nat, pages: nat)

  /** Where page n of an area starts. */
  function PageAt(offset: nat, n: nat, size: nat): nat {
    if n == 0 then offset else PageAt(offset, n - 1, size) + size
  }

  /** The n pages of an area, and all pages of areas, in the order they are visited. */
  function AreaPages(offset: nat, n: nat, size: nat): (s: seq<nat>)
    ensures |s| == n
  {
    if n == 0 then [] else AreaPages(offset, n - 1, size) + [PageAt(offset, n - 1, size)]
  }

  function Pages(areas: seq<Area>, size: nat): seq<nat> {
    if areas == [] then []
    else
      var last := areas[|areas| - 1];
      Pages(areas[..|areas| - 1], size) + AreaPages(last.offset, last.pages, size)
  }

  function Times(n: nat, w: nat): nat {
    n * w
  }

  /** What page number n of a run is to hold, when a page is w blocks of the stream. */
  function PageData(seed: seq<octet>, w: nat, n: nat): (s: seq<octet>)
    ensures |s| == 16 * w
  {
    Stream(seed, Times(n, w), w)
  }

  /** Whether the device has a page at a. */
  predicate Fits(m: seq<octet>, w: nat, a: nat) {
    a + 16 * w <= |m|
  }

  predicate AllFit(m: seq<octet>, w: nat, pages: seq<nat>) {
    forall q :: 0 <= q < |pages| ==> Fits(m, w, pages[q])
  }

  /** Memory m once pages, in order, have been written. */
  function Written(m: seq<octet>, w: nat, pages: seq<nat>, seed: seq<octet>): (r: seq<octet>)
    requires AllFit(m, w, pages)
    ensures |r| == |m|
  {
    if pages == [] then m
    else
      var n := |pages| - 1;
      assert Fits(m, w, pages[n]);
      Put(Written(m, w, pages[..n], seed), pages[n], PageData(seed, w, n))
  }

  /** One line of output: an address, a bit, and the bit that was read there. */
  datatype Report = Report(addr: nat, bit: nat, plus: bool)

  /** ((x >> b) & 1) != 0 */
  predicate Bit(x: octet, b: nat) {
    x & Mask(b) != 0
  }

  function Mask(b: nat): octet {
    match b
    case 0 => 1
    case 1 => 2
    case 2 => 4
    case 3 => 8
    case 4 => 16
    case 5 => 32
    case 6 => 64
    case 7 => 128
    case _ => 0
  }

  lemma Digit0(x: octet)
    ensures x & 1 != 0 <==> x as int % 2 == 1
  {
  }

  lemma Digit1(x: octet)
    ensures x & 2 != 0 <==> x as int / 2 % 2 == 1
  {
  }

  lemma Digit2(x: octet)
    ensures x & 4 != 0 <==> x as int / 4 % 2 == 1
  {
  }

  lemma Digit3(x: octet)
    ensures x & 8 != 0 <==> x as int / 8 % 2 == 1
  {
  }

  lemma Digit4(x: octet)
    ensures x & 16 != 0 <==> x as int / 16 % 2 == 1
  {
  }

  lemma Digit5(x: octet)
    ensures x & 32 != 0 <==> x as int / 32 % 2 == 1
  {
  }

  lemma Digit6(x: octet)
    ensures x & 64 != 0 <==> x as int / 64 % 2 == 1
  {
  }

  lemma Digit7(x: octet)
    ensures x & 128 != 0 <==> x as int / 128 % 2 == 1
  {
  }

  /** Bit b of an octet is digit b of its number in base 2. */
  lemma BitDigit(x: octet)
    ensures var v := x as int;
            && (Bit(x, 0) <==> v % 2 == 1) && (Bit(x, 1) <==> v / 2 % 2 == 1)
            && (Bit(x, 2) <==> v / 4 % 2 == 1) && (Bit(x, 3) <==> v / 8 % 2 == 1)
            && (Bit(x, 4) <==> v / 16 % 2 == 1) && (Bit(x, 5) <==> v / 32 % 2 == 1)
            && (Bit(x, 6) <==> v / 64 % 2 == 1) && (Bit(x, 7) <==> v / 128 % 2 == 1)
  {
    Digit0(x); Digit1(x); Digit2(x); Digit3(x);
    Digit4(x); Digit5(x); Digit6(x); Digit7(x);
  }

  lemma BitXor(x: octet, y: octet, b: nat)
    ensures Bit(x ^ y, b) <==> Bit(x, b) != Bit(y, b)
  {
    MaskXor(x, y, Mask(b));
  }

  lemma MaskXor(x: octet, y: octet, m: octet)
    requires m & (m - 1) == 0
    ensures (x ^ y) & m != 0 <==> (x & m != 0) != (y & m != 0)
  {
  }

  lemma BitsDetermine(x: octet, y: octet)
    requires forall b :: 0 <= b < 8 ==> Bit(x, b) == Bit(y, b)
    ensures x == y
  {
    assert Bit(x, 0) == Bit(y, 0) && Bit(x, 1) == Bit(y, 1) && Bit(x, 2) == Bit(y, 2) && Bit(x, 3) == Bit(y, 3);
    assert Bit(x, 4) == Bit(y, 4) && Bit(x, 5) == Bit(y, 5) && Bit(x, 6) == Bit(y, 6) && Bit(x, 7) == Bit(y, 7);
  }

  /** The lines for bits 0 to b - 1 of an octet at a that should be x and is y. */
  function ByteReports(x: octet, y: octet, a: nat, b: nat): seq<Report> {
    if b == 0 then []
    else
      ByteReports(x, y, a, b - 1) + if Bit(x, b - 1) != Bit(y, b - 1) then [Report(a, b - 1, Bit(y, b - 1))] else []
  }

  /** The lines for the first k octets of a page at a. */
  function PageReports(x: seq<octet>, y: seq<octet>, a: nat, k: nat): seq<Report>
    requires k <= |x| && k <= |y|
  {
    if k == 0 then [] else PageReports(x, y, a, k - 1) + ByteReports(x[k - 1], y[k - 1], a + k - 1, 7)
  }

  function Reports(m: seq<octet>, w: nat, pages: seq<nat>, seed: seq<octet>): seq<Report>
    requires AllFit(m, w, pages)
  {
    if pages == [] then []
    else
      var n := |pages| - 1;
      var a := pages[n];
      assert Fits(m, w, a);
      Reports(m, w, pages[..n], seed) + PageReports(PageData(seed, w, n), m[a..a + 16 * w], a, 16 * w)
  }

  /** An octet at a that should be x and is y is wrong in bit r.bit, and r says so. */
  predicate Wrong(x: octet, y: octet, a: nat, r: Report) {
    r.addr == a && Bit(x, r.bit) != Bit(y, r.bit) && r.plus == Bit(y, r.bit)
  }

  /** The same, somewhere in the first k octets of a page at a. */
  predicate WrongIn(x: seq<octet>, y: seq<octet>, a: nat, k: nat, r: Report)
    requires k <= |x| && k <= |y|
  {
    a <= r.addr < a + k && Wrong(x[r.addr - a], y[r.addr - a], r.addr, r)
  }

  /** The same, in page number q of memory m. */
  predicate Differs(m: seq<octet>, w: nat, pages: seq<nat>, seed: seq<octet>, q: nat, r: Report) {
    q < |pages| && WrongOn(m, w, seed, q, pages[q], r)
  }

  /** The same, in a page at a that should hold what page number q does. */
  predicate WrongOn(m: seq<octet>, w: nat, seed: seq<octet>, q: nat, a: nat, r: Report) {
    a + 16 * w <= |m| && WrongIn(PageData(seed, w, q), m[a..a + 16 * w], a, 16 * w, r)
  }

  lemma {:induction false} ByteReportsExact(x: octet, y: octet, a: nat, b: nat, r: Report)
    ensures r in ByteReports(x, y, a, b) <==> r.bit < b && Wrong(x, y, a, r)
  {
    hide Bit;
    if b == 0 {
    } else {
      ByteReportsExact(x, y, a, b - 1, r);
    }
  }

  lemma {:induction false} PageReportsExact(x: seq<octet>, y: seq<octet>, a: nat, k: nat, r: Report)
    requires k <= |x| && k <= |y|
    ensures r in PageReports(x, y, a, k) <==> r.bit < 7 && WrongIn(x, y, a, k, r)
  {
    hide Bit, ByteReports;
    if k == 0 {
    } else {
      PageReportsExact(x, y, a, k - 1, r);
      ByteReportsExact(x[k - 1], y[k - 1], a + k - 1, 7, r);
    }
  }

  /** What is printed is exactly the bits below bit 7 that differ, with their value. */
  lemma {:induction false} ReportsExact(m: seq<octet>, w: nat, pages: seq<nat>, seed: seq<octet>, r: Report)
    requires AllFit(m, w, pages)
    ensures r in Reports(m, w, pages, seed) <==> r.bit < 7 && exists q :: Differs(m, w, pages, seed, q, r)
  {
    hide *;
    if pages == [] {
      ReportsNone(m, w, seed, r);
    } else {
      FitDrop(m, w, pages);
      ReportsExact(m, w, pages[..|pages| - 1], seed, r);
      ReportsLast(m, w, pages, seed, r);
      DiffersLast(m, w, pages, seed, r);
    }
  }

  lemma ReportsNone(m: seq<octet>, w: nat, seed: seq<octet>, r: Report)
    requires AllFit(m, w, [])
    ensures Reports(m, w, [], seed) == []
    ensures forall q :: !Differs(m, w, [], seed, q, r)
  {
    hide WrongIn, PageData;
  }

  lemma ReportsLast(m: seq<octet>, w: nat, pages: seq<nat>, seed: seq<octet>, r: Report)
    requires AllFit(m, w, pages) && pages != []
    requires AllFit(m, w, pages[..|pages| - 1]) && Fits(m, w, pages[|pages| - 1])
    ensures var n := |pages| - 1;
            var a := pages[n];
            r in Reports(m, w, pages, seed) <==>
            r in Reports(m, w, pages[..n], seed) || (r.bit < 7 && WrongOn(m, w, seed, n, a, r))
  {
    hide AllFit, PageData, PageReports, WrongIn;
    var n := |pages| - 1;
    var a := pages[n];
    PageReportsExact(PageData(seed, w, n), m[a..a + 16 * w], a, 16 * w, r);
  }

  lemma FitDrop(m: seq<octet>, w: nat, pages: seq<nat>)
    requires AllFit(m, w, pages) && pages != []
    ensures var n := |pages| - 1; AllFit(m, w, pages[..n]) && Fits(m, w, pages[n]) && pages[n] + 16 * w <= |m|
  {
  }

  lemma DiffersLast(m: seq<octet>, w: nat, pages: seq<nat>, seed: seq<octet>, r: Report)
    requires pages != []
    ensures var n := |pages| - 1;
            (exists q :: Differs(m, w, pages, seed, q, r)) <==>
            (exists q :: Differs(m, w, pages[..n], seed, q, r)) || WrongOn(m, w, seed, n, pages[n], r)
  {
    hide WrongOn;
    var n := |pages| - 1;
    forall q: nat ensures Differs(m, w, pages, seed, q, r) <==>
                          Differs(m, w, pages[..n], seed, q, r) || (q == n && Differs(m, w, pages, seed, n, r))
    {
    }
    assert Differs(m, w, pages, seed, n, r) <==> WrongOn(m, w, seed, n, pages[n], r);
  }

  /** Two octets agree in bits 0 to 6. */
  predicate AgreeLow(x: octet, y: octet) {
    forall b: nat :: b < 7 ==> Bit(x, b) == Bit(y, b)
  }

  /** Every page is as the seed gives it, bit 7 apart. */
  predicate AllAgree(m: seq<octet>, w: nat, pages: seq<nat>, seed: seq<octet>)
    requires AllFit(m, w, pages)
  {
    forall q, i :: 0 <= q < |pages| && 0 <= i < 16 * w ==>
      Fits(m, w, pages[q]) && AgreeLow(PageData(seed, w, q)[i], m[pages[q] + i])
  }

  /** Nothing is printed if and only if the pages agree with the seed in bits 0 to 6. */
  lemma SilentExactly(m: seq<octet>, w: nat, pages: seq<nat>, seed: seq<octet>)
    requires AllFit(m, w, pages)
    ensures Reports(m, w, pages, seed) == [] <==> AllAgree(m, w, pages, seed)
  {
    hide Bit, Reports, PageData;
    var all := Reports(m, w, pages, seed);
    if all != [] {
      var r := all[0];
      ReportsExact(m, w, pages, seed, r);
      var q: nat :| Differs(m, w, pages, seed, q, r);
      assert !AgreeLow(PageData(seed, w, q)[r.addr - pages[q]], m[pages[q] + (r.addr - pages[q])]);
    } else {
      forall q, i | 0 <= q < |pages| && 0 <= i < 16 * w
        ensures Fits(m, w, pages[q]) && AgreeLow(PageData(seed, w, q)[i], m[pages[q] + i])
      {
        assert Fits(m, w, pages[q]);
        forall b: nat | b < 7 ensures Bit(PageData(seed, w, q)[i], b) == Bit(m[pages[q] + i], b) {
          var r := Report(pages[q] + i, b, Bit(m[pages[q] + i], b));
          ReportsExact(m, w, pages, seed, r);
          assert !Differs(m, w, pages, seed, q, r);
        }
      }
    }
  }

  /** Bit 7 is never looked at: turning it over in memory that passes, at any
      address, still passes. */
  lemma Bit7Missed(m: seq<octet>, w: nat, pages: seq<nat>, seed: seq<octet>, at: nat)
    requires AllFit(m, w, pages) && at < |m| && Reports(m, w, pages, seed) == []
    ensures var m' := m[at := m[at] ^ 0x80];
            m'[at] != m[at] && AllFit(m', w, pages) && Reports(m', w, pages, seed) == []
  {
    var m' := m[at := m[at] ^ 0x80];
    TurnOver(m[at]);
    FitSame(m, m', w, pages);
    hide Bit, PageData, Reports, AllFit;
    SilentExactly(m, w, pages, seed);
    AgreeSame(m, m', w, pages, seed);
    SilentExactly(m', w, pages, seed);
  }

  lemma FitSame(m: seq<octet>, m': seq<octet>, w: nat, pages: seq<nat>)
    requires |m| == |m'| && AllFit(m, w, pages)
    ensures AllFit(m', w, pages)
  {
    forall q | 0 <= q < |pages| ensures Fits(m', w, pages[q]) { assert Fits(m, w, pages[q]); }
  }

  lemma AgreeSame(m: seq<octet>, m': seq<octet>, w: nat, pages: seq<nat>, seed: seq<octet>)
    requires |m| == |m'| && AllFit(m, w, pages) && AllFit(m', w, pages) && AllAgree(m, w, pages, seed)
    requires forall i :: 0 <= i < |m| ==> m'[i] == m[i] || AgreeLow(m[i], m'[i])
    ensures AllAgree(m', w, pages, seed)
  {
    hide Bit, PageData;
    forall q, i | 0 <= q < |pages| && 0 <= i < 16 * w
      ensures Fits(m', w, pages[q]) && AgreeLow(PageData(seed, w, q)[i], m'[pages[q] + i])
    {
      assert Fits(m, w, pages[q]);
      assert AgreeLow(PageData(seed, w, q)[i], m[pages[q] + i]);
    }
  }

  lemma TurnOver(x: octet)
    ensures x ^ 0x80 != x && AgreeLow(x, x ^ 0x80)
  {
    forall b: nat | b < 7 ensures Bit(x, b) == Bit(x ^ 0x80, b) {
      BitXor(x, 0x80, b);
    }
  }

  /** Pages that do not overlap. */
  predicate Disjoint(w: nat, pages: seq<nat>) {
    forall p, q :: 0 <= p < q < |pages| ==> pages[p] + 16 * w <= pages[q] || pages[q] + 16 * w <= pages[p]
  }

  lemma PutHere(a: seq<octet>, at: nat, s: seq<octet>)
    requires at + |s| <= |a|
    ensures Put(a, at, s)[at..at + |s|] == s
  {
  }

  lemma PutElsewhere(a: seq<octet>, at: nat, s: seq<octet>, p: nat)
    requires at + |s| <= |a| && p + |s| <= |a| && (at + |s| <= p || p + |s| <= at)
    ensures Put(a, at, s)[p..p + |s|] == a[p..p + |s|]
  {
  }

  /** After writing, each page holds its part of the stream. */
  lemma {:induction false} WrittenHolds(m: seq<octet>, w: nat, pages: seq<nat>, seed: seq<octet>, q: nat)
    requires AllFit(m, w, pages) && Disjoint(w, pages) && q < |pages|
    ensures Fits(m, w, pages[q])
    ensures Written(m, w, pages, seed)[pages[q]..pages[q] + 16 * w] == PageData(seed, w, q)
  {
    hide PageData, Put;
    var n := |pages| - 1;
    assert Fits(m, w, pages[q]) && Fits(m, w, pages[n]);
    PutHere(Written(m, w, pages[..n], seed), pages[n], PageData(seed, w, n));
    if q < n {
      WrittenHolds(m, w, pages[..n], seed, q);
      PutElsewhere(Written(m, w, pages[..n], seed), pages[n], PageData(seed, w, n), pages[q]);
    }
  }

  /** And nothing outside the pages has changed. */
  lemma {:induction false} WrittenElsewhere(m: seq<octet>, w: nat, pages: seq<nat>, seed: seq<octet>, at: nat)
    requires AllFit(m, w, pages) && at < |m|
    requires forall q :: 0 <= q < |pages| ==> at < pages[q] || pages[q] + 16 * w <= at
    ensures Written(m, w, pages, seed)[at] == m[at]
  {
    hide PageData;
    if pages == [] {
    } else {
      var n := |pages| - 1;
      assert Fits(m, w, pages[n]);
      WrittenElsewhere(m, w, pages[..n], seed, at);
    }
  }

  /** Memory that keeps what is written to it passes the check with the same seed. */
  lemma FaithfulPasses(m: seq<octet>, w: nat, pages: seq<nat>, seed: seq<octet>)
    requires AllFit(m, w, pages) && Disjoint(w, pages)
    ensures var m' := Written(m, w, pages, seed);
            AllFit(m', w, pages) && Reports(m', w, pages, seed) == []
  {
    hide PageData, Written, Bit, Reports;
    var m' := Written(m, w, pages, seed);
    forall q | 0 <= q < |pages| ensures Fits(m', w, pages[q]) { assert Fits(m, w, pages[q]); }
    forall q, i | 0 <= q < |pages| && 0 <= i < 16 * w
      ensures Fits(m', w, pages[q]) && AgreeLow(PageData(seed, w, q)[i], m'[pages[q] + i])
    {
      WrittenHolds(m, w, pages, seed, q);
      assert m'[pages[q]..pages[q] + 16 * w][i] == m'[pages[q] + i];
    }
    SilentExactly(m', w, pages, seed);
  }

  /** Areas that do not overlap. */
  predicate AreasDisjoint(areas: seq<Area>, size: nat) {
    forall i, j :: 0 <= i < j < |areas| && areas[i].pages > 0 && areas[j].pages > 0 ==>
      || PageAt(areas[i].offset, areas[i].pages, size) <= areas[j].offset
      || PageAt(areas[j].offset, areas[j].pages, size) <= areas[i].offset
  }

  lemma {:induction false} PageAtMono(offset: nat, k: nat, n: nat, size: nat)
    requires k <= n
    ensures offset <= PageAt(offset, k, size) <= PageAt(offset, n, size)
  {
    if n == 0 {
    } else if k < n {
      PageAtMono(offset, k, n - 1, size);
    } else {
      PageAtMono(offset, k - 1, k - 1, size);
    }
  }

  lemma {:induction false} AreaPageIs(offset: nat, n: nat, size: nat, k: nat)
    requires k < n
    ensures AreaPages(offset, n, size)[k] == PageAt(offset, k, size)
  {
    if k == n - 1 {
    } else {
      AreaPageIs(offset, n - 1, size, k);
    }
  }

  lemma AreaPagesApart(offset: nat, n: nat, w: nat)
    ensures Disjoint(w, AreaPages(offset, n, 16 * w))
  {
    forall p, q | 0 <= p < q < n
      ensures AreaPages(offset, n, 16 * w)[p] + 16 * w <= AreaPages(offset, n, 16 * w)[q]
    {
      AreaPageIs(offset, n, 16 * w, p);
      AreaPageIs(offset, n, 16 * w, q);
      PageAtMono(offset, p + 1, q, 16 * w);
    }
  }

  /** a is one of the pages of area i. */
  predicate PageOf(areas: seq<Area>, w: nat, i: nat, a: nat) {
    && i < |areas| && areas[i].pages > 0
    && areas[i].offset <= a && a + 16 * w <= PageAt(areas[i].offset, areas[i].pages, 16 * w)
  }

  lemma {:induction false} PageFound(areas: seq<Area>, w: nat, q: nat) returns (i: nat)
    requires q < |Pages(areas, 16 * w)|
    ensures PageOf(areas, w, i, Pages(areas, 16 * w)[q])
  {
    hide PageAt;
    var n := |areas| - 1;
    var before := Pages(areas[..n], 16 * w);
    if q < |before| {
      i := PageFound(areas[..n], w, q);
    } else {
      i := n;
      PageInArea(areas[n].offset, areas[n].pages, w, q - |before|);
    }
  }

  lemma PageInArea(offset: nat, n: nat, w: nat, k: nat)
    requires k < n
    ensures var a := AreaPages(offset, n, 16 * w)[k]; offset <= a && a + 16 * w <= PageAt(offset, n, 16 * w)
  {
    AreaPageIs(offset, n, 16 * w, k);
    PageAtMono(offset, k + 1, n, 16 * w);
    PageAtMono(offset, k, n, 16 * w);
  }

  /** Areas that do not overlap have pages that do not overlap. */
  lemma {:induction false} PagesApart(areas: seq<Area>, w: nat)
    requires AreasDisjoint(areas, 16 * w)
    ensures Disjoint(w, Pages(areas, 16 * w))
  {
    hide PageAt;
    if areas == [] {
    } else {
      var n := |areas| - 1;
      PagesApart(areas[..n], w);
      AreaPagesApart(areas[n].offset, areas[n].pages, w);
      var before, last := Pages(areas[..n], 16 * w), AreaPages(areas[n].offset, areas[n].pages, 16 * w);
      forall p, k | 0 <= p < |before| && 0 <= k < |last|
        ensures before[p] + 16 * w <= last[k] || last[k] + 16 * w <= before[p]
      {
        var i := PageFound(areas[..n], w, p);
        PageInArea(areas[n].offset, areas[n].pages, w, k);
      }
      ApartConcat(w, before, last);
    }
  }

  lemma ApartConcat(w: nat, a: seq<nat>, b: seq<nat>)
    requires Disjoint(w, a) && Disjoint(w, b)
    requires forall p, k :: 0 <= p < |a| && 0 <= k < |b| ==> a[p] + 16 * w <= b[k] || b[k] + 16 * w <= a[p]
    ensures Disjoint(w, a + b)
  {
  }

  /** The pages visited so far are the first ones of all. */
  lemma {:induction false} PagesPrefix(areas: seq<Area>, size: nat, i: nat)
    requires i <= |areas|
    ensures Pages(areas[..i], size) <= Pages(areas, size)
    decreases |areas|
  {
    if i < |areas| {
      PagesPrefix(areas[..|areas| - 1], size, i);
      assert areas[..|areas| - 1][..i] == areas[..i];
    } else {
      assert areas[..i] == areas;
    }
  }

  lemma {:induction false} AreaPagesPrefix(offset: nat, k: nat, n: nat, size: nat)
    requires k <= n
    ensures AreaPages(offset, k, size) <= AreaPages(offset, n, size)
  {
    if k == n {
    } else {
      AreaPagesPrefix(offset, k, n - 1, size);
    }
  }

  lemma Visited(areas: seq<Area>, size: nat, i: nat, k: nat)
    requires i < |areas| && k <= areas[i].pages
    ensures Pages(areas[..i], size) + AreaPages(areas[i].offset, k, size) <= Pages(areas, size)
    ensures Pages(areas[..i + 1], size) == Pages(areas[..i], size) + AreaPages(areas[i].offset, areas[i].pages, size)
  {
    PagesPrefix(areas, size, i + 1);
    AreaPagesPrefix(areas[i].offset, k, areas[i].pages, size);
    assert areas[..i + 1][..i] == areas[..i];
  }

  lemma {:induction false} PageAtIs(offset: nat, n: nat, size: nat)
    ensures PageAt(offset, n, size) == offset + n * size
  {
    if n == 0 {
    } else {
      PageAtIs(offset, n - 1, size);
      assert (n - 1) * size + size == n * size;
    }
  }

  /** Where page k of area i is among all pages. */
  lemma PageIndex(areas: seq<Area>, w: nat, i: nat, k: nat) returns (q: nat)
    requires i < |areas| && k < areas[i].pages
    ensures |Pages(areas[..i], 16 * w)| <= q < |Pages(areas[..i + 1], 16 * w)| <= |Pages(areas, 16 * w)|
    ensures Pages(areas, 16 * w)[q] == areas[i].offset + k * (16 * w)
  {
    hide Pages;
    Visited(areas, 16 * w, i, areas[i].pages);
    AreaPageIs(areas[i].offset, areas[i].pages, 16 * w, k);
    PageAtIs(areas[i].offset, k, 16 * w);
    var before, own := Pages(areas[..i], 16 * w), AreaPages(areas[i].offset, areas[i].pages, 16 * w);
    q := |before| + k;
    assert Pages(areas, 16 * w)[q] == (before + own)[q] == own[k];
  }

  /** The page of an area that an octet is in. */
  lemma PageHolding(offset: nat, n: nat, size: nat, x: nat) returns (k: nat)
    requires size > 0 && offset <= x < PageAt(offset, n, size)
    ensures k < n && offset + k * size <= x < offset + k * size + size
  {
    PageAtIs(offset, n, size);
    k := (x - offset) / size;
    assert x - offset == k * size + (x - offset) % size;
    if k >= n { Bits.MulMono(n, k, size); }
  }

  /** The pages do not overlap if and only if the areas do not. */
  lemma DisjointExactly(areas: seq<Area>, w: nat)
    requires w > 0
    ensures Disjoint(w, Pages(areas, 16 * w)) <==> AreasDisjoint(areas, 16 * w)
  {
    if AreasDisjoint(areas, 16 * w) { PagesApart(areas, w); }
    if Disjoint(w, Pages(areas, 16 * w)) {
      hide PageAt, Pages;
      forall i, j | 0 <= i < j < |areas| && areas[i].pages > 0 && areas[j].pages > 0
        ensures || PageAt(areas[i].offset, areas[i].pages, 16 * w) <= areas[j].offset
                || PageAt(areas[j].offset, areas[j].pages, 16 * w) <= areas[i].offset
      {
        if PageAt(areas[i].offset, areas[i].pages, 16 * w) > areas[j].offset
           && PageAt(areas[j].offset, areas[j].pages, 16 * w) > areas[i].offset {
          AreasMeet(areas, w, i, j);
        }
      }
    }
  }

  lemma AreasMeet(areas: seq<Area>, w: nat, i: nat, j: nat)
    requires w > 0 && i < j < |areas| && areas[i].pages > 0 && areas[j].pages > 0
    requires PageAt(areas[i].offset, areas[i].pages, 16 * w) > areas[j].offset
    requires PageAt(areas[j].offset, areas[j].pages, 16 * w) > areas[i].offset
    ensures !Disjoint(w, Pages(areas, 16 * w))
  {
    hide PageAt, Pages;
    var a, b := areas[i], areas[j];
    PageAtIs(a.offset, a.pages, 16 * w);
    PageAtIs(b.offset, b.pages, 16 * w);
    Positive(a.pages, 16 * w);
    Positive(b.pages, 16 * w);
    var x := if a.offset < b.offset then b.offset else a.offset;
    var k := PageHolding(a.offset, a.pages, 16 * w, x);
    var l := PageHolding(b.offset, b.pages, 16 * w, x);
    var p := PageIndex(areas, w, i, k);
    var q := PageIndex(areas, w, j, l);
    PagesPrefix(areas[..j], 16 * w, i + 1);
    assert areas[..j][..i + 1] == areas[..i + 1];
    assert p < q;
  }

  lemma Positive(n: nat, size: nat)
    requires n > 0 && size > 0
    ensures n * size > 0
  {
    Bits.MulMono(1, n, size);
  }

  /** Writing areas and then checking them with the same seed prints nothing. */
  lemma AreasPass(m: seq<octet>, w: nat, areas: seq<Area>, seed: seq<octet>)
    requires AreasDisjoint(areas, 16 * w) && AllFit(m, w, Pages(areas, 16 * w))
    ensures var pages := Pages(areas, 16 * w);
            var m' := Written(m, w, pages, seed);
            AllFit(m', w, pages) && Reports(m', w, pages, seed) == []
  {
    hide Pages, Written, Reports, AllFit, Disjoint, AreasDisjoint;
    PagesApart(areas, w);
    FaithfulPasses(m, w, Pages(areas, 16 * w), seed);
  }

  lemma FirstFit(m: seq<octet>, w: nat, pages: seq<nat>, n: nat)
    requires n <= |pages| && AllFit(m, w, pages[..n])
    ensures forall q :: 0 <= q < n ==> Fits(m, w, pages[q])
  {
    forall q | 0 <= q < n ensures Fits(m, w, pages[q]) { assert pages[..n][q] == pages[q]; }
  }

  /** The first n pages are written and the first k compared, as far as they fit: these
      are the same pages, and they agree. */
  lemma WholePass(m: seq<octet>, w: nat, pages: seq<nat>, seed: seq<octet>, n: nat, k: nat)
    requires Disjoint(w, pages) && n <= |pages| && k <= |pages| && AllFit(m, w, pages[..n])
    requires var m' := Written(m, w, pages[..n], seed);
             && AllFit(m', w, pages[..k])
             && (n < |pages| ==> !Fits(m, w, pages[n])) && (k < |pages| ==> !Fits(m', w, pages[k]))
    ensures k == n && Reports(Written(m, w, pages[..n], seed), w, pages[..k], seed) == []
    ensures n == |pages| <==> AllFit(m, w, pages)
  {
    hide Written, Reports;
    var m' := Written(m, w, pages[..n], seed);
    FirstFit(m, w, pages, n);
    FirstFit(m', w, pages, k);
    assert pages[..|pages|] == pages;
    FaithfulPasses(m, w, pages[..n], seed);
  }

  lemma DataIs(seed: seq<octet>, w: nat, n: nat)
    ensures PageData(seed, w, n) == Stream(seed, Times(n, w), w)
    ensures Times(n, w) + w == Times(n + 1, w) && Times(0, w) == 0
  {
  }

  lemma FitsIs(m: seq<octet>, w: nat, a: nat)
    ensures Fits(m, w, a) <==> a + 16 * w <= |m|
  {
  }

  lemma WrittenNone(m: seq<octet>, w: nat, seed: seq<octet>)
    ensures AllFit(m, w, []) && Written(m, w, [], seed) == m && Reports(m, w, [], seed) == []
  {
  }

  lemma FitNext(m: seq<octet>, w: nat, done: seq<nat>, a: nat)
    requires AllFit(m, w, done) && a + 16 * w <= |m|
    ensures AllFit(m, w, done + [a]) && Fits(m, w, a)
  {
    forall q | 0 <= q < |done + [a]| ensures Fits(m, w, (done + [a])[q]) {
      assert q < |done| ==> Fits(m, w, done[q]);
    }
  }

  /** One page more. */
  lemma WrittenNext(m: seq<octet>, w: nat, done: seq<nat>, a: nat, seed: seq<octet>)
    requires AllFit(m, w, done) && AllFit(m, w, done + [a]) && Fits(m, w, a)
    ensures Written(m, w, done + [a], seed) == Put(Written(m, w, done, seed), a, PageData(seed, w, |done|))
  {
    hide Put, PageData, AllFit;
    assert (done + [a])[..|done|] == done;
  }

  lemma ReportsNext(m: seq<octet>, w: nat, done: seq<nat>, a: nat, seed: seq<octet>)
    requires AllFit(m, w, done) && AllFit(m, w, done + [a]) && Fits(m, w, a)
    ensures Reports(m, w, done + [a], seed) ==
            Reports(m, w, done, seed) + PageReports(PageData(seed, w, |done|), m[a..a + 16 * w], a, 16 * w)
  {
    hide PageData, PageReports, AllFit;
    assert (done + [a])[..|done|] == done;
  }

  lemma ByteReportsNone(x: octet, y: octet, a: nat)
    ensures ByteReports(x, y, a, 0) == []
  {
  }

  lemma ByteReportsNext(x: octet, y: octet, a: nat, b: nat)
    ensures ByteReports(x, y, a, b + 1) ==
            ByteReports(x, y, a, b) + if Bit(x ^ y, b) then [Report(a, b, Bit(y, b))] else []
  {
    BitXor(x, y, b);
  }

  lemma {:induction false} ByteReportsSame(x: octet, a: nat, b: nat)
    ensures ByteReports(x, x, a, b) == []
  {
    if b == 0 {
    } else {
      ByteReportsSame(x, a, b - 1);
    }
  }

  lemma XorZero(x: octet, y: octet)
    ensures x ^ y == 0 <==> x == y
  {
  }

  lemma PagesNone(size: nat)
    ensures Pages([], size) == []
  {
  }

  lemma PageAtNone(offset: nat, size: nat)
    ensures PageAt(offset, 0, size) == offset && AreaPages(offset, 0, size) == []
  {
  }

  lemma VisitedNext(areas: seq<Area>, size: nat, i: nat, k: nat, done: seq<nat>, o: nat)
    requires i < |areas| && k < areas[i].pages && o == PageAt(areas[i].offset, k, size)
    requires done == Pages(areas[..i], size) + AreaPages(areas[i].offset, k, size)
    ensures |done| < |Pages(areas, size)| && Pages(areas, size)[..|done|] == done && Pages(areas, size)[|done|] == o
    ensures done + [o] == Pages(areas[..i], size) + AreaPages(areas[i].offset, k + 1, size)
    ensures PageAt(areas[i].offset, k + 1, size) == o + size
  {
    Visited(areas, size, i, k + 1);
  }

  /** The static variables of rumt_trymem.c: a device of memory, and a buffer of two
      pages of 16 w octets. */
  class Tester {
    const device: array<octet>
    const buffer: array<octet>
    const stream: Md5Stream
    const w: nat

    ghost predicate Shape() {
      && buffer.Length == 32 * w && device != buffer && stream.Shape()
      && device !in stream.repr && buffer !in stream.repr
    }

    constructor (device: array<octet>, w: nat)
      ensures Shape() && this.device == device && this.w == w
      ensures fresh(buffer) && fresh(stream.repr)
    {
      this.device := device;
      this.w := w;
      buffer := new octet[32 * w];
      stream := new Md5Stream();
    }

    /** One page of write_areas: prepared, and written if the device takes it. */
    method WritePage(o: nat) returns (ok: bool)
      requires Shape() && stream.Valid()
      modifies device, buffer, stream.repr
      ensures stream.Valid() && stream.seed == old(stream.seed) && stream.blocks == old(stream.blocks) + w
      ensures ok <==> o + 16 * w <= device.Length
      ensures device[..] ==
              if ok then Put(old(device[..]), o, Stream(stream.seed, old(stream.blocks), w)) else old(device[..])
    {
      hide *;
      ShapeIs();
      WholePage(w);
      ghost var b0, d0 := buffer[..], device[..];
      stream.Fill(buffer, 0, 16 * w);
      PutHere(b0, 0, Stream(stream.seed, old(stream.blocks), w));
      ok := o + 16 * w <= device.Length;
      if ok {
        CopyPage(o);
      }
    }

    /** The stream stands after the pages done. */
    ghost predicate Ready(seed: seq<octet>, done: nat)
      requires Shape()
      reads stream, stream.counter, stream.context, stream.context.buf, stream.context.inw
    {
      stream.Valid() && stream.seed == seed && stream.blocks == Times(done, w)
    }

    /** One page more of write_areas. */
    method WriteNext(o: nat, ghost m: seq<octet>, ghost done: seq<nat>, ghost seed: seq<octet>) returns (ok: bool)
      requires Shape() && Ready(seed, |done|)
      requires AllFit(m, w, done) && device[..] == Written(m, w, done, seed)
      modifies device, buffer, stream.repr
      ensures ok <==> Fits(m, w, o)
      ensures !ok ==> device[..] == old(device[..])
      ensures ok ==> Ready(seed, |done + [o]|) && AllFit(m, w, done + [o])
      ensures ok ==> device[..] == Written(m, w, done + [o], seed)
    {
      hide *;
      ReadyIs(seed, |done|);
      DataIs(seed, w, |done|);
      FitsIs(m, w, o);
      ok := WritePage(o);
      if ok {
        FitNext(m, w, done, o);
        WrittenNext(m, w, done, o, seed);
        ReadyIs(seed, |done + [o]|);
      }
    }

    lemma ReadyIs(seed: seq<octet>, done: nat)
      requires Shape()
      ensures Ready(seed, done) <==> stream.Valid() && stream.seed == seed && stream.blocks == Times(done, w)
    {
    }

    /** The first lines of write_areas and of check_areas. */
    method Begin(seed: seq<octet>)
      requires Shape()
      modifies stream.repr
      ensures Ready(seed, 0)
    {
      ShapeIs();
      hide *;
      stream.Init();
      stream.Seed(seed);
      DataIs(seed, w, 0);
      assert [] + seed == seed;
      ReadyIs(seed, 0);
    }

    /** write_areas, up to the first page the device refuses: there the program ends.
        n pages were written. */
    method WriteAreas(areas: seq<Area>, seed: seq<octet>) returns (ok: bool, ghost n: nat)
      requires Shape()
      modifies device, buffer, stream.repr
      ensures var pages := Pages(areas, 16 * w);
              && n <= |pages| && AllFit(old(device[..]), w, pages[..n])
              && device[..] == Written(old(device[..]), w, pages[..n], seed)
              && (if ok then n == |pages| else n < |pages| && !Fits(old(device[..]), w, pages[n]))
    {
      hide *;
      ShapeIs();
      ghost var m, done := device[..], [];
      WrittenNone(m, w, seed);
      PagesNone(16 * w);
      Begin(seed);
      for i := 0 to |areas|
        invariant done == Pages(areas[..i], 16 * w) && Ready(seed, |done|)
        invariant AllFit(m, w, done) && device[..] == Written(m, w, done, seed)
      {
        var o := areas[i].offset;
        ghost var k := 0;
        PageAtNone(o, 16 * w);
        for j := areas[i].pages downto 0
          invariant k == areas[i].pages - j && o == PageAt(areas[i].offset, k, 16 * w) && Ready(seed, |done|)
          invariant done == Pages(areas[..i], 16 * w) + AreaPages(areas[i].offset, k, 16 * w)
          invariant AllFit(m, w, done) && device[..] == Written(m, w, done, seed)
        {
          VisitedNext(areas, 16 * w, i, k, done, o);
          ok := WriteNext(o, m, done, seed);
          if !ok { return ok, |done|; }
          done, o, k := done + [o], o + 16 * w, k + 1;
        }
        Visited(areas, 16 * w, i, k);
      }
      assert areas[..|areas|] == areas && done[..|done|] == done;
      ok, n := true, |done|;
    }

    /** The system call write. */
    method CopyPage(o: nat)
      requires buffer.Length == 32 * w && device != buffer && o + 16 * w <= device.Length
      modifies device
      ensures device[..] == Put(old(device[..]), o, buffer[..16 * w])
    {
      forall k | 0 <= k < 16 * w {
        device[o + k] := buffer[k];
      }
    }

    /** The innermost loop of check_areas: x is what buffer and buffer2 differ by. */
    method CheckByte(x: octet, y: octet, a: nat) returns (lines: seq<Report>)
      ensures lines == ByteReports(x, y, a, 7)
    {
      hide Bit, ByteReports;
      var d := x ^ y;
      XorZero(x, y);
      ByteReportsNone(x, y, a);
      lines := [];
      if d == 0 {
        ByteReportsSame(x, a, 7);
      } else {
        for b := 0 to 7
          invariant lines == ByteReports(x, y, a, b)
        {
          ByteReportsNext(x, y, a, b);
          if Bit(d, b) {
            lines := lines + [Report(a, b, Bit(y, b))];
          }
        }
      }
    }

    /** One page of check_areas. */
    method CheckPage(o: nat, ghost m: seq<octet>) returns (ok: bool, lines: seq<Report>)
      requires Shape() && stream.Valid() && device[..] == m
      modifies buffer, stream.repr
      ensures stream.Valid() && stream.seed == old(stream.seed) && stream.blocks == old(stream.blocks) + w
      ensures device[..] == m && (ok <==> o + 16 * w <= |m|)
      ensures var x := Stream(stream.seed, old(stream.blocks), w);
              lines == if ok then PageReports(x, m[o..o + 16 * w], o, 16 * w) else []
    {
      hide *;
      ShapeIs();
      WholePage(w);
      ghost var b0 := buffer[..];
      stream.Fill(buffer, 0, 16 * w);
      PutHere(b0, 0, Stream(stream.seed, old(stream.blocks), w));
      ok, lines := o + 16 * w <= device.Length, [];
      if ok {
        ghost var x := buffer[..16 * w];
        assert x == Stream(stream.seed, old(stream.blocks), w);
        ReadPage(o);
        assert m[o..o + 16 * w] == device[o..o + 16 * w];
        lines := ComparePage(o);
      }
    }

    /** The system call read, into buffer2. */
    method ReadPage(o: nat)
      requires buffer.Length == 32 * w && device != buffer && o + 16 * w <= device.Length
      modifies buffer
      ensures buffer[..16 * w] == old(buffer[..16 * w]) && buffer[16 * w..] == device[o..o + 16 * w]
    {
      forall k | 0 <= k < 16 * w {
        buffer[16 * w + k] := device[o + k];
      }
    }

    method ComparePage(o: nat) returns (lines: seq<Report>)
      requires buffer.Length == 32 * w
      ensures lines == PageReports(buffer[..16 * w], buffer[16 * w..], o, 16 * w)
    {
      hide ByteReports;
      lines := [];
      for k := 0 to 16 * w
        invariant lines == PageReports(buffer[..16 * w], buffer[16 * w..], o, k)
      {
        var more := CheckByte(buffer[k], buffer[16 * w + k], o + k);
        lines := lines + more;
      }
    }

    /** One page more of check_areas. */
    method CheckNext(o: nat, ghost m: seq<octet>, ghost done: seq<nat>, ghost seed: seq<octet>)
      returns (ok: bool, lines: seq<Report>)
      requires Shape() && Ready(seed, |done|) && device[..] == m && AllFit(m, w, done)
      modifies buffer, stream.repr
      ensures device[..] == m && (ok <==> Fits(m, w, o))
      ensures !ok ==> lines == []
      ensures ok ==> Ready(seed, |done + [o]|) && AllFit(m, w, done + [o])
      ensures ok ==> Reports(m, w, done + [o], seed) == Reports(m, w, done, seed) + lines
    {
      hide *;
      ReadyIs(seed, |done|);
      DataIs(seed, w, |done|);
      FitsIs(m, w, o);
      ok, lines := CheckPage(o, m);
      if ok {
        FitNext(m, w, done, o);
        ReportsNext(m, w, done, o, seed);
        ReadyIs(seed, |done + [o]|);
      }
    }

    /** check_areas, up to the first page the device refuses. n pages were compared. */
    method CheckAreas(areas: seq<Area>, seed: seq<octet>) returns (ok: bool, lines: seq<Report>, ghost n: nat)
      requires Shape()
      modifies buffer, stream.repr
      ensures device[..] == old(device[..])
      ensures var pages := Pages(areas, 16 * w);
              && n <= |pages| && AllFit(device[..], w, pages[..n])
              && lines == Reports(device[..], w, pages[..n], seed)
              && (if ok then n == |pages| else n < |pages| && !Fits(device[..], w, pages[n]))
    {
      hide *;
      ShapeIs();
      ghost var m, done := device[..], [];
      WrittenNone(m, w, seed);
      PagesNone(16 * w);
      Begin(seed);
      lines := [];
      for i := 0 to |areas|
        invariant done == Pages(areas[..i], 16 * w) && Ready(seed, |done|) && device[..] == m
        invariant AllFit(m, w, done) && lines == Reports(m, w, done, seed)
      {
        var o := areas[i].offset;
        ghost var k := 0;
        PageAtNone(o, 16 * w);
        for j := areas[i].pages downto 0
          invariant k == areas[i].pages - j && o == PageAt(areas[i].offset, k, 16 * w) && Ready(seed, |done|)
          invariant done == Pages(areas[..i], 16 * w) + AreaPages(areas[i].offset, k, 16 * w) && device[..] == m
          invariant AllFit(m, w, done) && lines == Reports(m, w, done, seed)
        {
          VisitedNext(areas, 16 * w, i, k, done, o);
          var more: seq<Report>;
          ok, more := CheckNext(o, m, done, seed);
          if !ok { return ok, lines, |done|; }
          lines := lines + more;
          done, o, k := done + [o], o + 16 * w, k + 1;
        }
        Visited(areas, 16 * w, i, k);
      }
      assert areas[..|areas|] == areas && done[..|done|] == done;
      ok, n := true, |done|;
    }

    /** Writing areas and then checking them, for any device that keeps what is written to
        it: nothing is printed, and all pages are compared unless the device refuses one. */
    method WriteThenCheck(areas: seq<Area>, seed: seq<octet>) returns (ok: bool, lines: seq<Report>)
      requires Shape() && AreasDisjoint(areas, 16 * w)
      modifies device, buffer, stream.repr
      ensures lines == [] && (ok <==> AllFit(old(device[..]), w, Pages(areas, 16 * w)))
      ensures ok ==> device[..] == Written(old(device[..]), w, Pages(areas, 16 * w), seed)
    {
      hide *;
      ghost var m, pages := device[..], Pages(areas, 16 * w);
      PagesApart(areas, w);
      var written, n := WriteAreas(areas, seed);
      ghost var k;
      ok, lines, k := CheckAreas(areas, seed);
      WholePass(m, w, pages, seed, n, k);
      assert pages[..|pages|] == pages;
    }

    lemma ShapeIs()
      requires Shape()
      ensures buffer.Length == 32 * w && device != buffer && stream.Shape()
      ensures device !in stream.repr && buffer !in stream.repr
    {
    }
  }
}
