/** What the fixed-point transform comes near to: the inverse DCT of section A.3.3 of
    ITU-T T.81, of the coefficients dequantised by the table that was read. */
module InverseDct {
  import opened Blocks
  import opened Idct

  type Index = i: nat | i < 8

  /** aaidct */
  function Aaidct(u: Index): int {
    match u case 0 => 724 case 1 => 1004 case 2 => 946 case 3 => 851
            case 4 => 724 case 5 => 569 case 6 => 392 case _ => 200
  }

  lemma AaidctConstants()
    ensures Aaidct(0) == Aaidct(4) == IFix(0.3535533906) && Aaidct(1) == IFix(0.4903926402)
    ensures Aaidct(2) == IFix(0.4619397663) && Aaidct(3) == IFix(0.4157348062)
    ensures Aaidct(5) == IFix(0.2777851165) && Aaidct(6) == IFix(0.1913417162)
    ensures Aaidct(7) == IFix(0.0975451610)
  {
  }

  /** What idctqtab multiplies an entry of the quantisation table by. */
  function Scale(v: Index, u: Index): int {
    IMult(Aaidct(v), Aaidct(u))
  }

  /** The frequencies of the places in the zig-zag order, as 8 * v + u. */
  function Spots(i: Index): V8 {
    match i
    case 0 => V8(0, 1, 8, 16, 9, 2, 3, 10)
    case 1 => V8(17, 24, 32, 25, 18, 11, 4, 5)
    case 2 => V8(12, 19, 26, 33, 40, 48, 41, 34)
    case 3 => V8(27, 20, 13, 6, 7, 14, 21, 28)
    case 4 => V8(35, 42, 49, 56, 57, 50, 43, 36)
    case 5 => V8(29, 22, 15, 23, 30, 37, 44, 51)
    case 6 => V8(58, 59, 52, 45, 38, 31, 39, 46)
    case _ => V8(53, 60, 61, 54, 47, 55, 62, 63)
  }

  function Spot(j: nat): int
    requires j < 64
  {
    Spots(j / 8).At(j % 8)
  }

  lemma SpotRow0()
    ensures Spot(Place(0, 0)) == 0 && Spot(Place(0, 1)) == 1 && Spot(Place(0, 2)) == 2
    ensures Spot(Place(0, 3)) == 3 && Spot(Place(0, 4)) == 4 && Spot(Place(0, 5)) == 5
    ensures Spot(Place(0, 6)) == 6 && Spot(Place(0, 7)) == 7
  {
  }

  lemma SpotRow1()
    ensures Spot(Place(1, 0)) == 8 && Spot(Place(1, 1)) == 9 && Spot(Place(1, 2)) == 10
    ensures Spot(Place(1, 3)) == 11 && Spot(Place(1, 4)) == 12 && Spot(Place(1, 5)) == 13
    ensures Spot(Place(1, 6)) == 14 && Spot(Place(1, 7)) == 15
  {
  }

  lemma SpotRow2()
    ensures Spot(Place(2, 0)) == 16 && Spot(Place(2, 1)) == 17 && Spot(Place(2, 2)) == 18
    ensures Spot(Place(2, 3)) == 19 && Spot(Place(2, 4)) == 20 && Spot(Place(2, 5)) == 21
    ensures Spot(Place(2, 6)) == 22 && Spot(Place(2, 7)) == 23
  {
  }

  lemma SpotRow3()
    ensures Spot(Place(3, 0)) == 24 && Spot(Place(3, 1)) == 25 && Spot(Place(3, 2)) == 26
    ensures Spot(Place(3, 3)) == 27 && Spot(Place(3, 4)) == 28 && Spot(Place(3, 5)) == 29
    ensures Spot(Place(3, 6)) == 30 && Spot(Place(3, 7)) == 31
  {
  }

  lemma SpotRow4()
    ensures Spot(Place(4, 0)) == 32 && Spot(Place(4, 1)) == 33 && Spot(Place(4, 2)) == 34
    ensures Spot(Place(4, 3)) == 35 && Spot(Place(4, 4)) == 36 && Spot(Place(4, 5)) == 37
    ensures Spot(Place(4, 6)) == 38 && Spot(Place(4, 7)) == 39
  {
  }

  lemma SpotRow5()
    ensures Spot(Place(5, 0)) == 40 && Spot(Place(5, 1)) == 41 && Spot(Place(5, 2)) == 42
    ensures Spot(Place(5, 3)) == 43 && Spot(Place(5, 4)) == 44 && Spot(Place(5, 5)) == 45
    ensures Spot(Place(5, 6)) == 46 && Spot(Place(5, 7)) == 47
  {
  }

  lemma SpotRow6()
    ensures Spot(Place(6, 0)) == 48 && Spot(Place(6, 1)) == 49 && Spot(Place(6, 2)) == 50
    ensures Spot(Place(6, 3)) == 51 && Spot(Place(6, 4)) == 52 && Spot(Place(6, 5)) == 53
    ensures Spot(Place(6, 6)) == 54 && Spot(Place(6, 7)) == 55
  {
  }

  lemma SpotRow7()
    ensures Spot(Place(7, 0)) == 56 && Spot(Place(7, 1)) == 57 && Spot(Place(7, 2)) == 58
    ensures Spot(Place(7, 3)) == 59 && Spot(Place(7, 4)) == 60 && Spot(Place(7, 5)) == 61
    ensures Spot(Place(7, 6)) == 62 && Spot(Place(7, 7)) == 63
  {
  }

  lemma PlaceSpot(v: Index, u: Index)
    ensures Spot(Place(v, u)) == 8 * v + u
  {
    hide Spot, Place;
    match v
    case 0 => SpotRow0(); case 1 => SpotRow1(); case 2 => SpotRow2(); case 3 => SpotRow3();
    case 4 => SpotRow4(); case 5 => SpotRow5(); case 6 => SpotRow6(); case _ => SpotRow7();
  }

  /** The table t is what idctqtab makes of q. */
  ghost predicate Rescaled(q: Block, t: Block) {
    forall v: Index, u: Index :: t[Place(v, u)] == q[Place(v, u)] * Scale(v, u)
  }

  /** idctqtab */
  method IdctQtab(qin: array<int>, qout: array<int>)
    requires qin.Length == 64 && qout.Length == 64 && qin != qout
    modifies qout
    ensures Rescaled(qin[..], qout[..])
  {
    hide Place, Scale, Spot;
    for i := 0 to 8
      invariant forall v: Index, u: Index :: v < i ==> qout[Place(v, u)] == qin[Place(v, u)] * Scale(v, u)
    {
      for j := 0 to 8
        invariant forall v: Index, u: Index :: v < i || (v == i && u < j) ==>
                    qout[Place(v, u)] == qin[Place(v, u)] * Scale(v, u)
      {
        forall v: Index, u: Index ensures Spot(Place(v, u)) == 8 * v + u { PlaceSpot(v, u); }
        qout[Place(i, j)] := qin[Place(i, j)] * Scale(i, j);
      }
    }
  }

  function Whole(t: V8): int {
    t.x0 + t.x1 + t.x2 + t.x3 + t.x4 + t.x5 + t.x6 + t.x7
  }

  /** A term for each pair of frequencies, v first, and their sums. */
  function RowOf(f: (Index, Index) -> int, v: Index): V8 {
    V8(f(v, 0), f(v, 1), f(v, 2), f(v, 3), f(v, 4), f(v, 5), f(v, 6), f(v, 7))
  }

  function ColumnOf(f: (Index, Index) -> int, u: Index): V8 {
    V8(f(0, u), f(1, u), f(2, u), f(3, u), f(4, u), f(5, u), f(6, u), f(7, u))
  }

  function RowSums(f: (Index, Index) -> int): V8 {
    V8(Whole(RowOf(f, 0)), Whole(RowOf(f, 1)), Whole(RowOf(f, 2)), Whole(RowOf(f, 3)),
       Whole(RowOf(f, 4)), Whole(RowOf(f, 5)), Whole(RowOf(f, 6)), Whole(RowOf(f, 7)))
  }

  function Sum(f: (Index, Index) -> int): int {
    Whole(RowSums(f))
  }

  /** The terms of the sum of section A.3.3 for the sample in row r and column x, four
      times as large and in units of 10^-20. */
  function Terms(d: Block, r: Index, x: Index): (Index, Index) -> int {
    (v: Index, u: Index) => d[Place(v, u)] * (CosineBasis(v, r) * CosineBasis(u, x))
  }

  function Inverse(d: Block, r: Index, x: Index): int {
    Sum(Terms(d, r, x))
  }

  /** The input of the butterfly that stands for a frequency. */
  function Input(u: Index): (i: Index)
    ensures Freq(i) == u
  {
    match u case 0 => 0 case 1 => 5 case 2 => 2 case 3 => 7 case 4 => 1 case 5 => 4 case 6 => 3 case _ => 6
  }

  /** The matrix Basis by frequencies. */
  function ByFreq(u: Index, x: Index): int {
    Basis(x).At(Input(u))
  }

  /** The terms of the same sum with that matrix. */
  function ExactTerms(d: Block, r: Index, x: Index): (Index, Index) -> int {
    (v: Index, u: Index) => d[Place(v, u)] * (ByFreq(v, r) * ByFreq(u, x))
  }

  lemma Distribute(b: int, r: V8, t: V8)
    ensures b * Dot(r, t) == t.x0 * (r.x0 * b) + t.x1 * (r.x1 * b) + t.x2 * (r.x2 * b) + t.x3 * (r.x3 * b)
                             + t.x4 * (r.x4 * b) + t.x5 * (r.x5 * b) + t.x6 * (r.x6 * b) + t.x7 * (r.x7 * b)
  {
    Product(b, r.x0, t.x0); Product(b, r.x1, t.x1); Product(b, r.x2, t.x2); Product(b, r.x3, t.x3);
    Product(b, r.x4, t.x4); Product(b, r.x5, t.x5); Product(b, r.x6, t.x6); Product(b, r.x7, t.x7);
    Over8(b, r.x0 * t.x0, r.x1 * t.x1, r.x2 * t.x2, r.x3 * t.x3, r.x4 * t.x4, r.x5 * t.x5, r.x6 * t.x6, r.x7 * t.x7);
  }

  lemma Product(b: int, r: int, t: int)
    ensures b * (r * t) == t * (r * b)
  {
  }

  lemma Over8(b: int, p0: int, p1: int, p2: int, p3: int, p4: int, p5: int, p6: int, p7: int)
    ensures b * (p0 + p1 + p2 + p3 + p4 + p5 + p6 + p7) ==
            b * p0 + b * p1 + b * p2 + b * p3 + b * p4 + b * p5 + b * p6 + b * p7
  {
  }

  lemma ByFreqs(x: Index)
    ensures var b := Basis(x);
            && ByFreq(0, x) == b.x0 && ByFreq(4, x) == b.x1 && ByFreq(2, x) == b.x2 && ByFreq(6, x) == b.x3
            && ByFreq(5, x) == b.x4 && ByFreq(1, x) == b.x5 && ByFreq(7, x) == b.x6 && ByFreq(3, x) == b.x7
    ensures Basis(x).x0 == 2048
  {
  }

  lemma ColumnTerms(d: Block, r: Index, x: Index, f: Index)
    ensures Whole(ColumnOf(ExactTerms(d, r, x), f)) ==
            d[Place(0, f)] * (ByFreq(0, r) * ByFreq(f, x)) + d[Place(1, f)] * (ByFreq(1, r) * ByFreq(f, x))
            + d[Place(2, f)] * (ByFreq(2, r) * ByFreq(f, x)) + d[Place(3, f)] * (ByFreq(3, r) * ByFreq(f, x))
            + d[Place(4, f)] * (ByFreq(4, r) * ByFreq(f, x)) + d[Place(5, f)] * (ByFreq(5, r) * ByFreq(f, x))
            + d[Place(6, f)] * (ByFreq(6, r) * ByFreq(f, x)) + d[Place(7, f)] * (ByFreq(7, r) * ByFreq(f, x))
  {
    hide Place, ByFreq;
  }

  /** The offset is apart from the first of the terms. */
  lemma Offset(c: int, o: int, r: int, b: int)
    requires r == 2048 && (o != 0 ==> b == 2048)
    ensures (c + o) * (r * b) == c * (r * b) + 2048 * 2048 * o
  {
    if o != 0 {
      assert r * b == 2048 * 2048;
    } else {
      assert c + o == c;
    }
  }

  /** A column of the first pass, as part of the sum. */
  lemma ColumnAsSum(d: Block, off: int, r: Index, x: Index, i: Index)
    ensures Basis(x).At(i) * Dot(Basis(r), Column(d, off, i)) ==
            (if i == 0 then 2048 * 2048 * off else 0) + Whole(ColumnOf(ExactTerms(d, r, x), Freq(i)))
  {
    var b, f, o, t := Basis(x).At(i), Freq(i), if i == 0 then off else 0, Column(d, off, i);
    assert b == ByFreq(f, x) && (i == 0 ==> b == 2048) by { InputFreq(i); ByFreqs(x); }
    ByFreqs(r);
    assert t == V8(d[Place(0, f)] + o, d[Place(4, f)], d[Place(2, f)], d[Place(6, f)],
                   d[Place(5, f)], d[Place(1, f)], d[Place(7, f)], d[Place(3, f)]) by { hide Place; }
    hide *;
    ColumnTerms(d, r, x, f);
    Distribute(b, Basis(r), t);
    Offset(d[Place(0, f)], o, Basis(r).x0, b);
  }

  lemma InputFreq(i: Index)
    ensures Input(Freq(i)) == i
  {
  }

  /** The columns first, or the rows. */
  lemma Swap(f: (Index, Index) -> int)
    ensures Sum(f) == Whole(ColumnOf(f, 0)) + Whole(ColumnOf(f, 1)) + Whole(ColumnOf(f, 2)) + Whole(ColumnOf(f, 3))
                      + Whole(ColumnOf(f, 4)) + Whole(ColumnOf(f, 5)) + Whole(ColumnOf(f, 6)) + Whole(ColumnOf(f, 7))
  {
  }

  /** The columns in the order of the butterfly's inputs. */
  lemma SumByInputs(f: (Index, Index) -> int)
    ensures Sum(f) ==
            Whole(ColumnOf(f, Freq(0))) + Whole(ColumnOf(f, Freq(1))) + Whole(ColumnOf(f, Freq(2)))
            + Whole(ColumnOf(f, Freq(3))) + Whole(ColumnOf(f, Freq(4))) + Whole(ColumnOf(f, Freq(5)))
            + Whole(ColumnOf(f, Freq(6))) + Whole(ColumnOf(f, Freq(7)))
  {
    Swap(f);
    hide Whole, ColumnOf, Sum;
  }

  /** The exact transform is the sum with the matrix Basis. */
  lemma ExactAsSum(d: Block, off: int, r: Index, x: Index)
    ensures ExactSample(d, off, r, x) == 2048 * 2048 * off + Sum(ExactTerms(d, r, x))
  {
    ColumnAsSum(d, off, r, x, 0); ColumnAsSum(d, off, r, x, 1);
    ColumnAsSum(d, off, r, x, 2); ColumnAsSum(d, off, r, x, 3);
    ColumnAsSum(d, off, r, x, 4); ColumnAsSum(d, off, r, x, 5);
    ColumnAsSum(d, off, r, x, 6); ColumnAsSum(d, off, r, x, 7);
    SumByInputs(ExactTerms(d, r, x));
    RowAsDots(d, off, r, x);
    hide *;
  }

  lemma RowAsDots(d: Block, off: int, r: Index, x: Index)
    ensures var b := Basis(x);
            ExactSample(d, off, r, x) ==
            b.At(0) * Dot(Basis(r), Column(d, off, 0)) + b.At(1) * Dot(Basis(r), Column(d, off, 1))
            + b.At(2) * Dot(Basis(r), Column(d, off, 2)) + b.At(3) * Dot(Basis(r), Column(d, off, 3))
            + b.At(4) * Dot(Basis(r), Column(d, off, 4)) + b.At(5) * Dot(Basis(r), Column(d, off, 5))
            + b.At(6) * Dot(Basis(r), Column(d, off, 6)) + b.At(7) * Dot(Basis(r), Column(d, off, 7))
  {
    hide Basis, Column;
  }

  /** In units of 1 / (4 * 10^20 * 2048^4): a level of a sample, a unit of the sum with
      Basis, and a unit of the sum of section A.3.3. */
  const UNIT := 4_0000000000_0000000000 * POW44
  const EXACT := 4_0000000000_0000000000 * 2048
  const POW44 := 2048 * 2048 * 2048 * 2048

  /** The largest entry of Basis for a frequency. */
  function Peak(u: Index): int {
    match u case 0 => 2048 case 1 => 2048 case 2 => 2048 case 3 => 2415
            case 4 => 2048 case 5 => 3615 case 6 => 4944 case _ => 10295
  }

  /** What rounding aaidct costs: how far its product with Basis is from the cosine. */
  function Rounded(u: Index): int {
    match u case 0 => 3168008142848 case 1 => 15483207483392 case 2 => 6746512490496 case 3 => 33816247228416
            case 4 => 3168008142848 case 5 => 5336792516608 case 6 => 10643813171200 case _ => 42883752771584
  }

  predicate Rounds(u: Index, x: Index) {
    -Rounded(u) <= 2_0000000000 * (Aaidct(u) * ByFreq(u, x)) - 2048 * 2048 * CosineBasis(u, x) <= Rounded(u)
  }

  lemma RoundsRow0()
    ensures Rounds(0, 0) && Rounds(0, 1) && Rounds(0, 2) && Rounds(0, 3)
    ensures Rounds(0, 4) && Rounds(0, 5) && Rounds(0, 6) && Rounds(0, 7)
  {
  }

  lemma RoundsRow1()
    ensures Rounds(1, 0) && Rounds(1, 1) && Rounds(1, 2) && Rounds(1, 3)
    ensures Rounds(1, 4) && Rounds(1, 5) && Rounds(1, 6) && Rounds(1, 7)
  {
  }

  lemma RoundsRow2()
    ensures Rounds(2, 0) && Rounds(2, 1) && Rounds(2, 2) && Rounds(2, 3)
    ensures Rounds(2, 4) && Rounds(2, 5) && Rounds(2, 6) && Rounds(2, 7)
  {
  }

  lemma RoundsRow3()
    ensures Rounds(3, 0) && Rounds(3, 1) && Rounds(3, 2) && Rounds(3, 3)
    ensures Rounds(3, 4) && Rounds(3, 5) && Rounds(3, 6) && Rounds(3, 7)
  {
  }

  lemma RoundsRow4()
    ensures Rounds(4, 0) && Rounds(4, 1) && Rounds(4, 2) && Rounds(4, 3)
    ensures Rounds(4, 4) && Rounds(4, 5) && Rounds(4, 6) && Rounds(4, 7)
  {
  }

  lemma RoundsRow5()
    ensures Rounds(5, 0) && Rounds(5, 1) && Rounds(5, 2) && Rounds(5, 3)
    ensures Rounds(5, 4) && Rounds(5, 5) && Rounds(5, 6) && Rounds(5, 7)
  {
  }

  lemma RoundsRow6()
    ensures Rounds(6, 0) && Rounds(6, 1) && Rounds(6, 2) && Rounds(6, 3)
    ensures Rounds(6, 4) && Rounds(6, 5) && Rounds(6, 6) && Rounds(6, 7)
  {
  }

  lemma RoundsRow7()
    ensures Rounds(7, 0) && Rounds(7, 1) && Rounds(7, 2) && Rounds(7, 3)
    ensures Rounds(7, 4) && Rounds(7, 5) && Rounds(7, 6) && Rounds(7, 7)
  {
  }

  lemma AllRounds(u: Index, x: Index)
    ensures Rounds(u, x)
  {
    hide Rounds;
    match u
    case 0 => RoundsRow0(); case 1 => RoundsRow1(); case 2 => RoundsRow2(); case 3 => RoundsRow3();
    case 4 => RoundsRow4(); case 5 => RoundsRow5(); case 6 => RoundsRow6(); case _ => RoundsRow7();
  }

  lemma PeakBound(u: Index, x: Index)
    ensures -Peak(u) <= ByFreq(u, x) <= Peak(u)
  {
    match x
    case 0 => case 1 => case 2 => case 3 => case 4 => case 5 => case 6 => case _ =>
  }

  const ONE := 1_0000000000

  lemma {:induction false} Cos16Bound(n: nat)
    ensures -ONE <= Cos16(n) <= ONE
  {
    if n >= 32 {
      Cos16Bound(n - 32);
    } else {
    }
  }

  lemma CosineBound(u: Index, x: Index)
    ensures -ONE <= CosineBasis(u, x) <= ONE
  {
    hide Cos16;
    Cos16Bound(2 * x + 1); Cos16Bound(4 * x + 2); Cos16Bound(6 * x + 3); Cos16Bound(8 * x + 4);
    Cos16Bound(10 * x + 5); Cos16Bound(12 * x + 6); Cos16Bound(14 * x + 7);
  }

  /** What a unit of a dequantised coefficient can cost: the fraction that the product of
      two factors drops, and the rounding of either. */
  function Gap(v: Index, u: Index): int {
    4_0000000000_0000000000 * (Aaidct(v) * Aaidct(u) % 2048 * (Peak(v) * Peak(u)))
    + 2_0000000000 * (Aaidct(v) * Peak(v) * Rounded(u))
    + 1_0000000000 * (2048 * 2048 * Rounded(v))
  }

  lemma Magnitude(a: int, b: int, m: int, n: int)
    requires -m <= a <= m && -n <= b <= n
    ensures -(m * n) <= a * b <= m * n
  {
    if a >= 0 && b >= 0 {
      Below(a, b, m, n);
    } else if a >= 0 {
      Below(a, -b, m, n);
    } else if b >= 0 {
      Below(-a, b, m, n);
    } else {
      Below(-a, -b, m, n);
    }
    assert a * b == -(a * -b) == -(-a * b) == -a * -b;
  }

  lemma Below(a: nat, b: nat, m: int, n: int)
    requires a <= m && b <= n
    ensures 0 <= a * b <= m * n
  {
    assert a * b <= m * b <= m * n;
  }

  /** The product of two factors, and what is left of it when 2048 is taken out. */
  lemma ScaleRest(v: Index, u: Index, w: int)
    ensures 2048 * (Scale(v, u) * w) == Aaidct(v) * Aaidct(u) * w - Aaidct(v) * Aaidct(u) % 2048 * w
  {
    var p := Aaidct(v) * Aaidct(u);
    assert p == 2048 * (p / 2048) + p % 2048;
    hide Aaidct;
    assert p * w == 2048 * (p / 2048) * w + p % 2048 * w;
  }

  lemma Regroup(a: int, b: int, p: int, q: int)
    ensures a * b * (p * q) == a * p * (b * q)
  {
    assert a * b * (p * q) == a * (b * (p * q)) == a * (p * (b * q)) == a * p * (b * q);
  }

  /** The difference of two products, by those of their factors. */
  lemma ProductGap(a: int, b: int, c: int, d: int)
    ensures 4_0000000000_0000000000 * (a * b) - POW44 * (c * d) ==
            2_0000000000 * (a * (2_0000000000 * b - 2048 * 2048 * d))
            + 2048 * 2048 * (d * (2_0000000000 * a - 2048 * 2048 * c))
  {
    assert a * (2_0000000000 * b - 2048 * 2048 * d) == 2_0000000000 * (a * b) - 2048 * 2048 * (a * d);
    assert d * (2_0000000000 * a - 2048 * 2048 * c) == 2_0000000000 * (a * d) - 2048 * 2048 * (c * d);
  }

  /** An exact value is off by no more than a gap, both in their units. */
  predicate Off(exact: int, inverse: int, gap: int) {
    -gap <= EXACT * exact - POW44 * inverse <= gap
  }

  lemma PairGap(x: int, y: int, c: int, d: int, xMax: int, m: int, n: int)
    requires -xMax <= x <= xMax && -ONE <= d <= ONE
    requires -m <= 2_0000000000 * x - 2048 * 2048 * c <= m && -n <= 2_0000000000 * y - 2048 * 2048 * d <= n
    ensures var bound := 2_0000000000 * (xMax * n) + 1_0000000000 * (2048 * 2048 * m);
            -bound <= 4_0000000000_0000000000 * (x * y) - POW44 * (c * d) <= bound
  {
    ProductGap(x, y, c, d);
    Magnitude(x, 2_0000000000 * y - 2048 * 2048 * d, xMax, n);
    Magnitude(d, 2_0000000000 * x - 2048 * 2048 * c, ONE, m);
  }

  lemma RestGap(rest: nat, p: int, q: int, pMax: int, qMax: int)
    requires -pMax <= p <= pMax && -qMax <= q <= qMax
    ensures -(rest * (pMax * qMax)) <= rest * (p * q) <= rest * (pMax * qMax)
  {
    Magnitude(p, q, pMax, qMax);
    Magnitude(rest, p * q, rest, pMax * qMax);
  }

  /** Two frequencies, with what idctqtab multiplies them by. */
  lemma FactorGap(v: Index, u: Index, r: Index, x: Index)
    ensures Off(Scale(v, u) * (ByFreq(v, r) * ByFreq(u, x)), CosineBasis(v, r) * CosineBasis(u, x), Gap(v, u))
  {
    AllRounds(v, r);
    AllRounds(u, x);
    PeakBound(v, r);
    PeakBound(u, x);
    CosineBound(u, x);
    var a, b, p, q := Aaidct(v), Aaidct(u), ByFreq(v, r), ByFreq(u, x);
    var rest, two := a * b % 2048, a * p * (b * q);
    assert a >= 0;
    hide Aaidct, Scale, ByFreq, CosineBasis, Peak, Rounded;
    ScaleRest(v, u, p * q);
    Regroup(a, b, p, q);
    Magnitude(a, p, a, Peak(v));
    PairGap(a * p, b * q, CosineBasis(v, r), CosineBasis(u, x), a * Peak(v), Rounded(v), Rounded(u));
    RestGap(rest, p, q, Peak(v), Peak(u));
    assert EXACT * (Scale(v, u) * (p * q)) ==
           4_0000000000_0000000000 * two - 4_0000000000_0000000000 * (rest * (p * q));
  }

  function Abs(x: int): nat {
    if x < 0 then -x else x
  }

  /** What the coefficients of a block can cost together. */
  function SpreadTerms(d: Block): (Index, Index) -> int {
    (v: Index, u: Index) => Abs(d[Place(v, u)]) * Gap(v, u)
  }

  function Spread(d: Block): int {
    Sum(SpreadTerms(d))
  }

  lemma OffTimes(d: int, exact: int, inverse: int, gap: int)
    requires Off(exact, inverse, gap)
    ensures Off(d * exact, d * inverse, Abs(d) * gap)
  {
    Magnitude(d, EXACT * exact - POW44 * inverse, Abs(d), gap);
    assert d * (EXACT * exact - POW44 * inverse) == EXACT * (d * exact) - POW44 * (d * inverse);
  }

  lemma TermOff(c: Block, q: Block, t: Block, r: Index, x: Index, v: Index, u: Index)
    requires Rescaled(q, t)
    ensures Off(ExactTerms(Dequantised(c, t), r, x)(v, u), Terms(Dequantised(c, q), r, x)(v, u),
                SpreadTerms(Dequantised(c, q))(v, u))
  {
    var j, w := Place(v, u), ByFreq(v, r) * ByFreq(u, x);
    assert t[j] == q[j] * Scale(v, u);
    hide Place, Scale, ByFreq, CosineBasis, Gap, Off, Abs, Rescaled;
    FactorGap(v, u, r, x);
    OffTimes(c[j] * q[j], Scale(v, u) * w, CosineBasis(v, r) * CosineBasis(u, x), Gap(v, u));
    Reassociate(c[j], q[j], Scale(v, u), w);
  }

  lemma Reassociate(a: int, b: int, c: int, d: int)
    ensures a * (b * c) * d == a * b * (c * d)
  {
    assert a * (b * c) * d == a * b * c * d == a * b * (c * d);
  }

  lemma WholeOff(e: V8, i: V8, g: V8)
    requires Off(e.x0, i.x0, g.x0) && Off(e.x1, i.x1, g.x1) && Off(e.x2, i.x2, g.x2) && Off(e.x3, i.x3, g.x3)
    requires Off(e.x4, i.x4, g.x4) && Off(e.x5, i.x5, g.x5) && Off(e.x6, i.x6, g.x6) && Off(e.x7, i.x7, g.x7)
    ensures Off(Whole(e), Whole(i), Whole(g))
  {
  }

  lemma RowOff(f: (Index, Index) -> int, g: (Index, Index) -> int, h: (Index, Index) -> int, v: Index)
    requires forall u: Index :: Off(f(v, u), g(v, u), h(v, u))
    ensures Off(Whole(RowOf(f, v)), Whole(RowOf(g, v)), Whole(RowOf(h, v)))
  {
    hide Whole, Off;
    WholeOff(RowOf(f, v), RowOf(g, v), RowOf(h, v));
  }

  lemma SumOff(f: (Index, Index) -> int, g: (Index, Index) -> int, h: (Index, Index) -> int)
    requires forall v: Index, u: Index :: Off(f(v, u), g(v, u), h(v, u))
    ensures Off(Sum(f), Sum(g), Sum(h))
  {
    hide Whole, Off, RowOf;
    forall v: Index ensures Off(Whole(RowOf(f, v)), Whole(RowOf(g, v)), Whole(RowOf(h, v))) {
      RowOff(f, g, h, v);
    }
    WholeOff(RowSums(f), RowSums(g), RowSums(h));
  }

  /** The sums for a block. */
  lemma BlockOff(c: Block, q: Block, t: Block, r: Index, x: Index)
    requires Rescaled(q, t)
    ensures Off(Sum(ExactTerms(Dequantised(c, t), r, x)), Inverse(Dequantised(c, q), r, x),
                Spread(Dequantised(c, q)))
  {
    var f, g := ExactTerms(Dequantised(c, t), r, x), Terms(Dequantised(c, q), r, x);
    var h := SpreadTerms(Dequantised(c, q));
    hide Terms, ExactTerms, SpreadTerms, Off, Rescaled, Sum;
    forall v: Index, u: Index ensures Off(f(v, u), g(v, u), h(v, u)) { TermOff(c, q, t, r, x, v, u); }
    SumOff(f, g, h);
  }

  /** How far a sample is from the inverse DCT with the offset added, the rounding of idctqtab
      and of aaidct included, for all coefficients and tables: the last shift rounds down, both passes lose no more than
      ERR, and each coefficient what its gap allows. */
  lemma InverseError(c: Block, q: Block, t: Block, off: int, r: Index, x: Index)
    requires Rescaled(q, t)
    ensures var bound := EXACT * ERR + Spread(Dequantised(c, q));
            var e := EXACT * 2048 * 2048 * off + POW44 * Inverse(Dequantised(c, q), r, x)
                     - UNIT * Sample(Dequantised(c, t), off, r, x);
            -bound < e < UNIT + bound
  {
    hide Rescaled, Inverse, Spread, Sample, ExactSample, Sum, ExactTerms, Dequantised;
    SampleError(Dequantised(c, t), off, r, x);
    ExactAsSum(Dequantised(c, t), off, r, x);
    BlockOff(c, q, t, r, x);
  }

  /** The sum of the magnitudes of the coefficients. */
  function AbsTerms(d: Block): (Index, Index) -> int {
    (v: Index, u: Index) => Abs(d[Place(v, u)])
  }

  function Total(d: Block): int {
    Sum(AbsTerms(d))
  }

  /** A gap is less than a 125th of a level. */
  predicate Narrow(v: Index, u: Index) {
    125 * Gap(v, u) <= UNIT
  }

  lemma GapRow0()
    ensures Narrow(0, 0) && Narrow(0, 1) && Narrow(0, 2) && Narrow(0, 3)
    ensures Narrow(0, 4) && Narrow(0, 5) && Narrow(0, 6) && Narrow(0, 7)
  {
  }

  lemma GapRow1()
    ensures Narrow(1, 0) && Narrow(1, 1) && Narrow(1, 2) && Narrow(1, 3)
    ensures Narrow(1, 4) && Narrow(1, 5) && Narrow(1, 6) && Narrow(1, 7)
  {
  }

  lemma GapRow2()
    ensures Narrow(2, 0) && Narrow(2, 1) && Narrow(2, 2) && Narrow(2, 3)
    ensures Narrow(2, 4) && Narrow(2, 5) && Narrow(2, 6) && Narrow(2, 7)
  {
  }

  lemma GapRow3()
    ensures Narrow(3, 0) && Narrow(3, 1) && Narrow(3, 2) && Narrow(3, 3)
    ensures Narrow(3, 4) && Narrow(3, 5) && Narrow(3, 6) && Narrow(3, 7)
  {
  }

  lemma GapRow4()
    ensures Narrow(4, 0) && Narrow(4, 1) && Narrow(4, 2) && Narrow(4, 3)
    ensures Narrow(4, 4) && Narrow(4, 5) && Narrow(4, 6) && Narrow(4, 7)
  {
  }

  lemma GapRow5()
    ensures Narrow(5, 0) && Narrow(5, 1) && Narrow(5, 2) && Narrow(5, 3)
    ensures Narrow(5, 4) && Narrow(5, 5) && Narrow(5, 6) && Narrow(5, 7)
  {
  }

  lemma GapRow6()
    ensures Narrow(6, 0) && Narrow(6, 1) && Narrow(6, 2) && Narrow(6, 3)
    ensures Narrow(6, 4) && Narrow(6, 5) && Narrow(6, 6) && Narrow(6, 7)
  {
  }

  lemma GapRow7()
    ensures Narrow(7, 0) && Narrow(7, 1) && Narrow(7, 2) && Narrow(7, 3)
    ensures Narrow(7, 4) && Narrow(7, 5) && Narrow(7, 6) && Narrow(7, 7)
  {
  }

  lemma GapBound(v: Index, u: Index)
    ensures Narrow(v, u)
  {
    hide Narrow;
    match v
    case 0 => GapRow0(); case 1 => GapRow1(); case 2 => GapRow2(); case 3 => GapRow3();
    case 4 => GapRow4(); case 5 => GapRow5(); case 6 => GapRow6(); case _ => GapRow7();
  }

  predicate Share(spread: int, total: int) {
    125 * spread <= UNIT * total
  }

  lemma TimesShare(a: nat, gap: int)
    requires Share(gap, 1)
    ensures Share(a * gap, a)
  {
    hide UNIT;
    assert a * (125 * gap) <= a * UNIT;
  }

  lemma SpreadShare(d: Block, v: Index, u: Index)
    ensures Share(SpreadTerms(d)(v, u), AbsTerms(d)(v, u))
  {
    GapBound(v, u);
    hide Abs, Gap, Place;
    TimesShare(Abs(d[Place(v, u)]), Gap(v, u));
  }

  lemma WholeShare(f: V8, g: V8)
    requires Share(f.x0, g.x0) && Share(f.x1, g.x1) && Share(f.x2, g.x2) && Share(f.x3, g.x3)
    requires Share(f.x4, g.x4) && Share(f.x5, g.x5) && Share(f.x6, g.x6) && Share(f.x7, g.x7)
    ensures Share(Whole(f), Whole(g))
  {
  }

  lemma TotalShare(d: Block)
    ensures Share(Spread(d), Total(d))
  {
    var f, g := SpreadTerms(d), AbsTerms(d);
    hide Whole, Share, AbsTerms, SpreadTerms;
    forall v: Index ensures Share(Whole(RowOf(f, v)), Whole(RowOf(g, v))) {
      forall u: Index ensures Share(f(v, u), g(v, u)) { SpreadShare(d, v, u); }
      WholeShare(RowOf(f, v), RowOf(g, v));
    }
    hide RowOf;
    WholeShare(RowSums(f), RowSums(g));
  }

  /** In levels: besides the rounding down, a sample is off by less than a 50th and
      a 125th for every unit of the dequantised coefficients. */
  lemma InverseNear(c: Block, q: Block, t: Block, off: int, r: Index, x: Index)
    requires Rescaled(q, t)
    ensures var total := Total(Dequantised(c, q));
            var e := EXACT * 2048 * 2048 * off + POW44 * Inverse(Dequantised(c, q), r, x)
                     - UNIT * Sample(Dequantised(c, t), off, r, x);
            -UNIT * (5 + 2 * total) < 250 * e < UNIT * (255 + 2 * total)
  {
    hide Rescaled, Inverse, Sample, Total, Spread, Dequantised;
    InverseError(c, q, t, off, r, x);
    TotalShare(Dequantised(c, q));
  }
}
