/** Canonical Huffman codes and their table-driven decoding. */
module Huffman {
  import opened Bits
  import opened Machine

  /** A DHT table: how many codes of each length 1..16, and the symbols. */
  datatype Table = Table(lens: seq<nat>, vals: seq<byte>)

  /** The smallest code of a length, and one more than the greatest. */
  function First(t: Table, len: nat): nat
    requires |t.lens| == 16 && 1 <= len <= 16
    decreases len, 0
  {
    if len == 1 then 0 else 2 * Max(t, len - 1)
  }

  function Max(t: Table, len: nat): nat
    requires |t.lens| == 16 && 1 <= len <= 16
    decreases len, 1
  {
    First(t, len) + t.lens[len - 1]
  }

  /** How many codes are shorter than len. */
  function Base(t: Table, len: nat): nat
    requires |t.lens| == 16 && 1 <= len <= 17
  {
    if len == 1 then 0 else Base(t, len - 1) + t.lens[len - 2]
  }

  /** The codes of no length up to len outnumber the bit strings left for them. */
  ghost predicate Fits(t: Table, len: nat)
    requires |t.lens| == 16 && len <= 16
  {
    len == 0 || (Max(t, len) <= Pow2(len) && Fits(t, len - 1))
  }

  lemma {:induction false} FitsAt(t: Table, n: nat, len: nat)
    requires |t.lens| == 16 && 1 <= len <= n <= 16 && Fits(t, n)
    ensures Max(t, len) <= Pow2(len)
  {
    if len == n {
    } else {
      FitsAt(t, n - 1, len);
    }
  }

  ghost predicate WellFormed(t: Table) {
    |t.lens| == 16 && Fits(t, 16) && |t.vals| == Base(t, 17) <= 256
  }

  predicate IsCode(t: Table, len: nat, c: nat)
    requires |t.lens| == 16
  {
    1 <= len <= 16 && First(t, len) <= c < Max(t, len)
  }

  lemma {:induction false} BaseMono(t: Table, m: nat, n: nat)
    requires |t.lens| == 16 && 1 <= m <= n <= 17
    ensures Base(t, m) <= Base(t, n)
    decreases n
  {
    if m == n {
    } else {
      BaseMono(t, m, n - 1);
    }
  }

  function Symbol(t: Table, len: nat, c: nat): byte
    requires WellFormed(t) && IsCode(t, len, c)
  {
    BaseMono(t, len + 1, 17);
    t.vals[Base(t, len) + c - First(t, len)]
  }

  /** Every extension of a code, or of anything below one, is below the codes of
      its own length: so no code is a prefix of another. */
  lemma {:induction false} ExtensionBelow(t: Table, m: nat, n: nat, c: nat)
    requires |t.lens| == 16 && 1 <= m < n <= 16
    requires Shr(c, n - m) < Max(t, m)
    ensures c < First(t, n)
    decreases n
  {
    if m + 1 < n { ExtensionBelow(t, m, n - 1, c / 2); }
  }

  lemma PrefixFree(t: Table, m: nat, n: nat, c: nat)
    requires |t.lens| == 16 && m < n && IsCode(t, m, Shr(c, n - m))
    ensures !IsCode(t, n, c)
  {
    if n <= 16 { ExtensionBelow(t, m, n, c); }
  }

  /** The code that the bits of s from bit i on begin with. */
  predicate CodeAt(t: Table, s: seq<bool>, i: nat, len: nat)
    requires |t.lens| == 16
  {
    IsCode(t, len, Num(s, i, len))
  }

  lemma CodeAtUnique(t: Table, s: seq<bool>, i: nat, m: nat, n: nat)
    requires |t.lens| == 16 && CodeAt(t, s, i, m) && CodeAt(t, s, i, n)
    ensures m == n
  {
    if m < n {
      NumSplit(s, i, m, n - m);
      PrefixFree(t, m, n, Num(s, i, n));
    } else if n < m {
      NumSplit(s, i, n, m - n);
      PrefixFree(t, n, m, Num(s, i, m));
    }
  }

  datatype Option<T> = None | Some(value: T)

  /** DECODE of figure F.16: one bit at a time, until the code does not exceed the
      greatest code of its length. Gives the length and the index of the symbol. */
  function Decode(t: Table, s: seq<bool>, i: nat, len: nat): Option<(nat, int)>
    requires |t.lens| == 16 && 1 <= len <= 17
    decreases 17 - len
  {
    if len == 17 then None
    else if t.lens[len - 1] > 0 && Num(s, i, len) <= Max(t, len) - 1 then
      Some((len, Base(t, len) + Num(s, i, len) - First(t, len)))
    else Decode(t, s, i, len + 1)
  }

  /** Bit-by-bit decoding finds the code the bits begin with, if there is one. */
  lemma {:induction false} DecodeFinds(t: Table, s: seq<bool>, i: nat, len: nat)
    requires WellFormed(t) && 1 <= len <= 17
    requires len > 1 ==> Num(s, i, len - 1) >= Max(t, len - 1)
    requires forall m: nat :: m < len ==> !CodeAt(t, s, i, m)
    ensures match Decode(t, s, i, len)
            case Some((m, k)) => CodeAt(t, s, i, m) && k == Base(t, m) + Num(s, i, m) - First(t, m)
            case None => forall m: nat :: !CodeAt(t, s, i, m)
    decreases 17 - len
  {
    if len <= 16 && !(t.lens[len - 1] > 0 && Num(s, i, len) <= Max(t, len) - 1) {
      DecodeFinds(t, s, i, len + 1);
    }
  }

  lemma DecodeCorrect(t: Table, s: seq<bool>, i: nat, len: nat)
    requires WellFormed(t)
    ensures (exists k :: Decode(t, s, i, 1) == Some((len, k))) <==> CodeAt(t, s, i, len)
    ensures CodeAt(t, s, i, len) ==>
              Decode(t, s, i, 1) == Some((len, Base(t, len) + Num(s, i, len) - First(t, len)))
  {
    DecodeFinds(t, s, i, 1);
    if CodeAt(t, s, i, len) {
      CodeAtUnique(t, s, i, len, Decode(t, s, i, 1).value.0);
    }
  }

  /** EXTEND of figure F.12. */
  function Extend(v: nat, size: nat): int {
    if size > 0 && v < Pow2(size - 1) then v - Pow2(size) + 1 else v
  }

  /** What follows a code of length len: run, value, and the bits used in all. */
  datatype Coefficient = Coefficient(run: nat, value: int, used: nat)

  function Received(t: Table, s: seq<bool>, i: nat, len: nat): Coefficient
    requires WellFormed(t) && CodeAt(t, s, i, len)
  {
    var symbol := Symbol(t, len, Num(s, i, len));
    var size := symbol % 16;
    Coefficient(symbol / 16, Extend(Num(s, i + len, size), size), len + size)
  }
}
