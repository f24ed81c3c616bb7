/** Powers of two, shifts and masks, and bit strings read most significant bit
    first. Shifts are defined one bit at a time; ShlMul and LowMod say what they
    are in arithmetic. */
module Bits {

  function Pow2(n: nat): (p: nat)
    ensures p >= 1
  {
    if n == 0 then 1 else 2 * Pow2(n - 1)
  }

  lemma Pow2Values()
    ensures Pow2(8) == 0x100 && Pow2(10) == 0x400 && Pow2(16) == 0x1_0000 && Pow2(32) == 0x1_0000_0000
  {
    assert Pow2(8) == 0x100;
    assert Pow2(16) == 0x1_0000;
    assert Pow2(24) == 0x100_0000;
  }

  /** x >> k */
  function Shr(x: nat, k: nat): nat {
    if k == 0 then x else Shr(x / 2, k - 1)
  }

  /** x & ((1 << n) - 1) */
  function Low(x: nat, n: nat): nat {
    if n == 0 then 0 else 2 * Low(x / 2, n - 1) + x % 2
  }

  /** x << k | b, for b below 2^k */
  function Shl(x: nat, k: nat, b: nat): nat {
    if k == 0 then x else 2 * Shl(x, k - 1, b / 2) + b % 2
  }

  lemma {:induction false} LowBound(x: nat, n: nat)
    ensures Low(x, n) < Pow2(n)
    ensures x < Pow2(n) ==> Low(x, n) == x && Shr(x, n) == 0
  {
    if n == 0 {
    } else {
      LowBound(x / 2, n - 1);
    }
  }

  /** A number is its high part shifted left over its low part. */
  lemma {:induction false} ShlShr(x: nat, k: nat)
    ensures Shl(Shr(x, k), k, Low(x, k)) == x
  {
    if k == 0 {
    } else {
      ShlShr(x / 2, k - 1);
    }
  }

  lemma {:induction false} ShrShl(x: nat, k: nat, b: nat)
    ensures Shr(Shl(x, k, b), k) == x
    ensures Low(Shl(x, k, b), k) == Low(b, k)
  {
    if k == 0 {
    } else {
      ShrShl(x, k - 1, b / 2);
      assert Shl(x, k, b) / 2 == Shl(x, k - 1, b / 2);
    }
  }

  lemma {:induction false} ShrShr(x: nat, j: nat, k: nat)
    ensures Shr(Shr(x, j), k) == Shr(x, j + k)
  {
    if j == 0 {
    } else {
      ShrShr(x / 2, j - 1, k);
    }
  }

  /** In arithmetic: shifting left multiplies by a power of two. */
  lemma {:induction false} ShlMul(x: nat, k: nat, b: nat)
    requires b < Pow2(k)
    ensures Shl(x, k, b) == x * Pow2(k) + b
  {
    if k == 0 {
    } else {
      ShlMul(x, k - 1, b / 2);
      var p := Pow2(k - 1);
      assert x * (2 * p) == 2 * (x * p);
    }
  }

  lemma QuotientBound(a: int, b: int, d: int, r: int, s: int)
    requires d > 0 && a * d + r == b * d + s && 0 <= r && s < d
    ensures a <= b
  {
    assert (b + 1) * d == b * d + d;
    if a > b { MulMono(b + 1, a, d); }
  }

  lemma MulMono(a: int, b: int, d: int)
    requires a <= b && d >= 0
    ensures a * d <= b * d
  {
  }

  /** Euclidean division is unique. */
  lemma DivModUnique(x: int, d: int, q: int, r: int)
    requires d > 0 && x == q * d + r && 0 <= r < d
    ensures x / d == q && x % d == r
  {
    assert x == (x / d) * d + x % d;
    QuotientBound(q, x / d, d, r, x % d);
    QuotientBound(x / d, q, d, x % d, r);
  }

  /** In arithmetic: masking and shifting right are remainder and quotient. */
  lemma {:induction false} LowMod(x: nat, n: nat)
    ensures Low(x, n) == x % Pow2(n)
    ensures Shr(x, n) == x / Pow2(n)
  {
    LowBound(x, n);
    ShlShr(x, n);
    ShlMul(Shr(x, n), n, Low(x, n));
    DivModUnique(x, Pow2(n), Shr(x, n), Low(x, n));
  }

  lemma {:induction false} ShlAdd(x: nat, k: nat, b: nat)
    requires b < Pow2(k)
    ensures Shl(x, k, b) == Shl(x, k, 0) + b
    ensures Shl(x + 1, k, 0) == Shl(x, k, 0) + Pow2(k)
    ensures k > 0 ==> Shl(2 * x, k - 1, 0) == Shl(x, k, 0)
  {
    if k == 0 {
    } else {
      ShlAdd(x, k - 1, b / 2);
    }
  }

  /** Bit k of s followed by zeros for ever. */
  function Bit(s: seq<bool>, k: nat): nat {
    if k < |s| && s[k] then 1 else 0
  }

  /** The number spelled by the n bits of s that start at bit i. */
  function Num(s: seq<bool>, i: nat, n: nat): nat {
    if n == 0 then 0 else 2 * Num(s, i, n - 1) + Bit(s, i + n - 1)
  }

  lemma {:induction false} NumBound(s: seq<bool>, i: nat, n: nat)
    ensures Num(s, i, n) < Pow2(n)
  {
    if n == 0 {
    } else {
      NumBound(s, i, n - 1);
    }
  }

  /** Reading m + n bits is reading m, then n. */
  lemma {:induction false} NumConcat(s: seq<bool>, i: nat, m: nat, n: nat)
    ensures Num(s, i, m + n) == Shl(Num(s, i, m), n, Num(s, i + m, n))
    decreases n
  {
    if n == 0 {
    } else {
      NumConcat(s, i, m, n - 1);
      assert Num(s, i, m + n) == 2 * Num(s, i, m + n - 1) + Bit(s, i + m + n - 1);
    }
  }

  lemma NumSplit(s: seq<bool>, i: nat, m: nat, n: nat)
    ensures Num(s, i, m + n) == Shl(Num(s, i, m), n, Num(s, i + m, n))
    ensures Shr(Num(s, i, m + n), n) == Num(s, i, m)
    ensures Low(Num(s, i, m + n), n) == Num(s, i + m, n)
  {
    hide *;
    NumConcat(s, i, m, n);
    ShrShl(Num(s, i, m), n, Num(s, i + m, n));
    NumBound(s, i + m, n);
    LowBound(Num(s, i + m, n), n);
  }

  /** Beyond the end of the string every number read is zero. */
  lemma {:induction false} NumBeyond(s: seq<bool>, i: nat, n: nat)
    requires i >= |s|
    ensures Num(s, i, n) == 0
  {
    if n == 0 {
    } else {
      NumBeyond(s, i, n - 1);
    }
  }

  /** The low n bits of x are the bits of s from bit i on. */
  predicate Shows(x: nat, n: nat, s: seq<bool>, i: nat) {
    n == 0 || (x % 2 == Bit(s, i + n - 1) && Shows(x / 2, n - 1, s, i))
  }

  lemma {:induction false} ShowsNum(x: nat, n: nat, s: seq<bool>, i: nat)
    requires Shows(x, n, s, i)
    ensures Low(x, n) == Num(s, i, n)
  {
    if n == 0 {
    } else {
      ShowsNum(x / 2, n - 1, s, i);
    }
  }

  lemma {:induction false} NumShows(n: nat, s: seq<bool>, i: nat)
    ensures Shows(Num(s, i, n), n, s, i)
  {
    if n == 0 {
    } else {
      NumShows(n - 1, s, i);
      assert Num(s, i, n) / 2 == Num(s, i, n - 1) && Num(s, i, n) % 2 == Bit(s, i + n - 1);
      hide Num, Bit;
    }
  }

  /** The first m shown bits, and the last n. */
  lemma {:induction false} ShowsSplit(x: nat, m: nat, n: nat, s: seq<bool>, i: nat)
    requires Shows(x, m + n, s, i)
    ensures Shows(Shr(x, n), m, s, i)
    ensures Shows(x, n, s, i + m)
    decreases n
  {
    if n == 0 {
    } else {
      ShowsSplit(x / 2, m, n - 1, s, i);
    }
  }

  /** Shifting in the next k bits shows k bits more. */
  lemma {:induction false} ShowsShl(x: nat, n: nat, k: nat, b: nat, s: seq<bool>, i: nat)
    requires Shows(x, n, s, i) && Shows(b, k, s, i + n)
    ensures Shows(Shl(x, k, b), n + k, s, i)
    decreases k
  {
    if k == 0 {
    } else {
      ShowsShl(x, n, k - 1, b / 2, s, i);
      assert Shl(x, k, b) / 2 == Shl(x, k - 1, b / 2);
    }
  }

  /** Cutting a number off above the shown bits leaves them alone. */
  lemma {:induction false} ShowsLow(x: nat, m: nat, n: nat, s: seq<bool>, i: nat)
    requires Shows(x, n, s, i) && n <= m
    ensures Shows(Low(x, m), n, s, i)
    decreases n
  {
    if n == 0 {
    } else {
      ShowsLow(x / 2, m - 1, n - 1, s, i);
      assert Low(x, m) / 2 == Low(x / 2, m - 1);
    }
  }

  lemma ShowsMod(x: nat, m: nat, w: nat, n: nat, s: seq<bool>, i: nat)
    requires Shows(x, n, s, i) && n <= m && w == Pow2(m)
    ensures Shows(x % w, n, s, i)
  {
    LowMod(x, m);
    ShowsLow(x, m, n, s, i);
  }

  /** The bits of s from bit i on begin with those of w. */
  predicate Spells(s: seq<bool>, i: nat, w: seq<bool>) {
    i + |w| <= |s| && s[i..i + |w|] == w
  }

  lemma SpellsConcat(s: seq<bool>, i: nat, v: seq<bool>, w: seq<bool>)
    ensures Spells(s, i, v + w) <==> Spells(s, i, v) && Spells(s, i + |v|, w)
  {
    if i + |v + w| <= |s| {
      assert s[i..i + |v + w|] == s[i..i + |v|] + s[i + |v|..i + |v| + |w|];
      if Spells(s, i, v + w) {
        assert (v + w)[..|v|] == v && (v + w)[|v|..] == w;
        assert s[i..i + |v|] == (v + w)[..|v|];
        assert s[i + |v|..i + |v| + |w|] == (v + w)[|v|..];
      }
    }
  }

  /** The n-bit string whose number is v. */
  function Word(v: nat, n: nat): (w: seq<bool>)
    ensures |w| == n
  {
    if n == 0 then [] else Word(v / 2, n - 1) + [v % 2 == 1]
  }

  /** Reading back a written number gives the number. */
  lemma {:induction false} WordShows(s: seq<bool>, i: nat, v: nat, n: nat)
    requires Spells(s, i, Word(v, n))
    ensures Shows(v, n, s, i)
    ensures v < Pow2(n) ==> Num(s, i, n) == v
  {
    if n == 0 {
    } else {
      SpellsConcat(s, i, Word(v / 2, n - 1), [v % 2 == 1]);
      WordShows(s, i, v / 2, n - 1);
      assert s[i + n - 1..i + n] == [v % 2 == 1];
      assert s[i + n - 1] == s[i + n - 1..i + n][0];
    }
    ShowsNum(v, n, s, i);
    LowBound(v, n);
  }
}
