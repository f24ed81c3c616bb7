/** The sequential encoding of section F.1.2 of ITU-T T.81: DC differences,
    run lengths, and their Huffman codes. */
module McuCoding {
  import opened Bits
  import opened Machine
  import opened Huffman
  import opened Coefficients

  /** A run of zero coefficients and the value that ends it. */
  datatype Item = Item(run: nat, value: int)

  const EOB := Item(0, 0)
  const ZRL := Item(15, 0)

  /** Figure F.2: the AC coefficients from index k on, r zeros being pending. */
  function RunLength(zz: seq<int>, k: nat, r: nat): seq<Item>
    requires 1 <= k <= 64 == |zz|
    decreases 64 - k, r
  {
    if k == 64 then (if r > 0 then [EOB] else [])
    else if zz[k] == 0 then RunLength(zz, k + 1, r + 1)
    else if r > 15 then [ZRL] + RunLength(zz, k, r - 16)
    else [Item(r, zz[k])] + RunLength(zz, k + 1, 0)
  }

  predicate ZeroFrom(zz: seq<int>, a: nat, b: nat) {
    forall m :: a <= m < b <= |zz| ==> zz[m] == 0
  }

  /** Pending zeros can be counted later. */
  lemma {:induction false} RunLengthZeros(zz: seq<int>, a: nat, b: nat, r: nat)
    requires 1 <= a <= b <= 64 == |zz| && ZeroFrom(zz, a, b)
    ensures RunLength(zz, a, r) == RunLength(zz, b, r + b - a)
    decreases b - a
  {
    if a == b {
    } else {
      RunLengthZeros(zz, a + 1, b, r + 1);
    }
  }

  function NextNonZero(zz: seq<int>, k: nat): (n: nat)
    requires k <= |zz|
    ensures k <= n <= |zz| && ZeroFrom(zz, k, n) && (n < |zz| ==> zz[n] != 0)
    decreases |zz| - k
  {
    if k == |zz| || zz[k] != 0 then k else NextNonZero(zz, k + 1)
  }

  /** The first item of the coefficients from k on, and what follows it. */
  lemma RunLengthStep(zz: seq<int>, k: nat)
    requires 1 <= k < 64 == |zz|
    ensures var n := NextNonZero(zz, k);
            RunLength(zz, k, 0) ==
              if n == 64 then [EOB]
              else if n - k > 15 then [ZRL] + RunLength(zz, k + 16, 0)
              else [Item(n - k, zz[n])] + RunLength(zz, n + 1, 0)
  {
    var n := NextNonZero(zz, k);
    RunLengthZeros(zz, k, n, 0);
    if n < 64 && n - k > 15 { RunLengthZeros(zz, k + 16, n, 0); }
  }

  /** SSSS: the number of bits of |v|. */
  function SizeOf(a: nat): nat {
    if a == 0 then 0 else 1 + SizeOf(a / 2)
  }

  function Abs(v: int): nat { if v < 0 then -v else v }

  /** The additional bits of section F.1.2.1: v itself, or v - 1 in SSSS bits of
      two's complement. */
  function Extra(v: int, size: nat): int {
    if v < 0 then v - 1 + Pow2(size) else v
  }

  lemma {:induction false} SizeBounds(a: nat)
    requires a > 0
    ensures Pow2(SizeOf(a) - 1) <= a < Pow2(SizeOf(a))
  {
    if a == 1 {
    } else {
      SizeBounds(a / 2);
    }
  }

  /** EXTEND undoes the choice of additional bits, and never yields zero. */
  lemma ExtendExtra(v: int)
    ensures var size := SizeOf(Abs(v));
            && 0 <= Extra(v, size) < Pow2(size)
            && Extend(Extra(v, size), size) == v
            && (size == 0 <==> v == 0)
  {
    if v != 0 { SizeBounds(Abs(v)); }
  }

  /** The code of the k-th symbol of a table: its length and its number. */
  function LengthOf(t: Table, k: nat, len: nat): (n: nat)
    requires WellFormed(t) && k < |t.vals| && 1 <= len <= 16 && Base(t, len) <= k
    ensures len <= n <= 16 && Base(t, n) <= k < Base(t, n + 1)
    decreases 16 - len
  {
    if k < Base(t, len + 1) then len
    else LengthOf(t, k, len + 1)
  }

  function NumberOf(t: Table, k: nat): (c: nat)
    requires WellFormed(t) && k < |t.vals|
  {
    var len := LengthOf(t, k, 1);
    First(t, len) + k - Base(t, len)
  }

  function CodeOf(t: Table, k: nat): seq<bool>
    requires WellFormed(t) && k < |t.vals|
  {
    Word(NumberOf(t, k), LengthOf(t, k, 1))
  }

  /** Generate_code_table of figure C.2: the first code is 0, and each is one more than the
      one before it, shifted left to its own length. */
  lemma CodesInOrder(t: Table, k: nat)
    requires WellFormed(t) && k < |t.vals|
    ensures k == 0 ==> NumberOf(t, k) == 0
    ensures k > 0 ==>
              && LengthOf(t, k - 1, 1) <= LengthOf(t, k, 1)
              && NumberOf(t, k) == Shl(NumberOf(t, k - 1) + 1, LengthOf(t, k, 1) - LengthOf(t, k - 1, 1), 0)
  {
    hide *;
    TableIs(t);
    CodeIs(t, k);
    if k > 0 { CodeIs(t, k - 1); }
    var len := LengthOf(t, k, 1);
    if k == 0 {
      NumberIs(t, 1, len, 0);
    } else {
      NumberIs(t, LengthOf(t, k - 1, 1), len, k);
    }
  }

  lemma TableIs(t: Table)
    requires WellFormed(t)
    ensures |t.lens| == 16 && Base(t, 1) == 0
  {
  }

  lemma CodeIs(t: Table, k: nat)
    requires WellFormed(t) && k < |t.vals|
    ensures Base(t, 1) == 0 && |t.lens| == 16
    ensures CodeOf(t, k) == Word(NumberOf(t, k), LengthOf(t, k, 1))
    ensures NumberOf(t, k) == First(t, LengthOf(t, k, 1)) + k - Base(t, LengthOf(t, k, 1))
  {
    hide Word, LengthOf;
  }

  /** The symbol before has a code of length was, and this one of length len. */
  lemma NumberIs(t: Table, was: nat, len: nat, k: nat)
    requires |t.lens| == 16 && 1 <= was <= 16 && 1 <= len <= 16 && Base(t, len) <= k < Base(t, len + 1)
    requires k == 0 ==> was == 1
    requires k > 0 ==> Base(t, was) <= k - 1 < Base(t, was + 1)
    ensures k == 0 ==> First(t, len) + k - Base(t, len) == 0
    ensures k > 0 ==>
              && was <= len
              && First(t, len) + k - Base(t, len) == Shl(First(t, was) + k - 1 - Base(t, was) + 1, len - was, 0)
  {
    if len < was { BaseMono(t, len + 1, was); }
    assert Base(t, was + 1) == Base(t, was) + t.lens[was - 1] && Max(t, was) == First(t, was) + t.lens[was - 1];
    assert Base(t, 1) == 0 && First(t, 1) == 0;
    assert was == len ==> Shl(First(t, was) + k - 1 - Base(t, was) + 1, 0, 0) == First(t, was) + k - Base(t, was);
    hide Shl, First, Max, Base;
    if k == 0 || was < len {
      if was < len { BaseMono(t, was + 1, len); }
      FirstShift(t, was, len);
    }
  }

  /** Without codes of the lengths in between. */
  lemma {:induction false} FirstShift(t: Table, m: nat, n: nat)
    requires |t.lens| == 16 && 1 <= m <= n <= 16
    requires m < n ==> Base(t, n) == Base(t, m + 1)
    ensures m == n || First(t, n) == Shl(Max(t, m), n - m, 0)
    ensures Base(t, n) == 0 && m == 1 ==> First(t, n) == 0
    decreases n
  {
    if m == n {
    } else if m + 1 == n {
    } else {
      BaseMono(t, m + 1, n - 1);
      FirstShift(t, m, n - 1);
      assert t.lens[n - 2] == 0;
    }
  }

  lemma SymbolAt(t: Table, k: nat, len: nat)
    requires WellFormed(t) && k < |t.vals| && 1 <= len <= 16 && Base(t, len) <= k < Base(t, len + 1)
    ensures var c := First(t, len) + k - Base(t, len); IsCode(t, len, c) && Symbol(t, len, c) == t.vals[k]
  {
    hide First, Fits;
  }

  lemma CodeInTable(t: Table, k: nat)
    requires WellFormed(t) && k < |t.vals|
    ensures var len := LengthOf(t, k, 1); var c := First(t, len) + k - Base(t, len);
            && IsCode(t, len, c) && Symbol(t, len, c) == t.vals[k]
            && CodeOf(t, k) == Word(c, len) && c < Pow2(len)
  {
    hide *;
    CodeIs(t, k);
    SymbolAt(t, k, LengthOf(t, k, 1));
    CodeBound(t, LengthOf(t, k, 1), NumberOf(t, k));
  }

  lemma CodeBound(t: Table, len: nat, c: nat)
    requires WellFormed(t) && IsCode(t, len, c)
    ensures c < Pow2(len)
  {
    FitsAt(t, 16, len);
    hide Fits, First, Max;
  }

  /** Written codes are recognised. */
  lemma CodeOfFound(t: Table, k: nat, s: seq<bool>, i: nat)
    requires WellFormed(t) && k < |t.vals| && Spells(s, i, CodeOf(t, k))
    ensures var len := |CodeOf(t, k)|;
            CodeAt(t, s, i, len) && Symbol(t, len, Num(s, i, len)) == t.vals[k]
  {
    CodeInTable(t, k);
    var len := LengthOf(t, k, 1);
    hide Word, LengthOf, Spells, Num, CodeOf, First, Base, WellFormed, IsCode, Symbol;
    WordShows(s, i, First(t, len) + k - Base(t, len), len);
  }

  function IndexOf(vals: seq<byte>, symbol: byte): (k: nat)
    requires symbol in vals
    ensures k < |vals| && vals[k] == symbol
  {
    if vals[0] == symbol then 0 else 1 + IndexOf(vals[1..], symbol)
  }

  /** The table has a code for an item: run and size make up its symbol. */
  predicate Codable(t: Table, item: Item) {
    item.run < 16 && SizeOf(Abs(item.value)) < 16
    && item.run * 16 + SizeOf(Abs(item.value)) in t.vals
  }

  function EncodeItem(t: Table, item: Item): seq<bool>
    requires WellFormed(t) && Codable(t, item)
  {
    var size := SizeOf(Abs(item.value));
    ExtendExtra(item.value);
    CodeOf(t, IndexOf(t.vals, item.run * 16 + size)) + Word(Extra(item.value, size), size)
  }

  predicate AllCodable(t: Table, items: seq<Item>) {
    forall m :: 0 <= m < |items| ==> Codable(t, items[m])
  }

  function EncodeItems(t: Table, items: seq<Item>): seq<bool>
    requires WellFormed(t) && AllCodable(t, items)
  {
    if items == [] then [] else EncodeItem(t, items[0]) + EncodeItems(t, items[1..])
  }

  /** The code of an item's symbol, and behind it the additional bits. */
  lemma ItemSpelled(t: Table, item: Item, s: seq<bool>, i: nat)
    requires WellFormed(t) && Codable(t, item) && Spells(s, i, EncodeItem(t, item))
    ensures var size, k := SizeOf(Abs(item.value)), IndexOf(t.vals, item.run * 16 + SizeOf(Abs(item.value)));
            && Spells(s, i, CodeOf(t, k)) && |EncodeItem(t, item)| == |CodeOf(t, k)| + size
            && Extend(Num(s, i + |CodeOf(t, k)|, size), size) == item.value
  {
    hide Extra, Extend, CodeOf, SizeOf, Num, Word, Spells, WellFormed, Codable, IndexOf;
    var size := SizeOf(Abs(item.value));
    var k := IndexOf(t.vals, item.run * 16 + size);
    ExtendExtra(item.value);
    SpellsConcat(s, i, CodeOf(t, k), Word(Extra(item.value, size), size));
    WordShows(s, i + |CodeOf(t, k)|, Extra(item.value, size), size);
  }

  /** Decoding an encoded item delivers it and uses exactly its bits. */
  lemma ItemDelivered(t: Table, item: Item, s: seq<bool>, i: nat, run: nat, v: int, pos: nat)
    requires WellFormed(t) && Codable(t, item) && Spells(s, i, EncodeItem(t, item))
    ensures HasCode(t, s, i)
    ensures Delivers(t, s, i, run, v, pos) ==>
              run == item.run && v == item.value && pos == i + |EncodeItem(t, item)|
  {
    hide EncodeItem, Extend, CodeOf, SizeOf, Num, Spells, WellFormed, IndexOf, Symbol, CodeAt;
    var k := IndexOf(t.vals, item.run * 16 + SizeOf(Abs(item.value)));
    ItemSpelled(t, item, s, i);
    CodeOfFound(t, k, s, i);
    if Delivers(t, s, i, run, v, pos) {
      assert DeliversCode(t, s, i, |CodeOf(t, k)|, run, v, pos);
    }
  }

  /** A table with a code of eight bits for every symbol. */
  const FULL: Table := Table([0, 0, 0, 0, 0, 0, 0, 256, 0, 0, 0, 0, 0, 0, 0, 0], seq(256, i requires 0 <= i < 256 => i))

  lemma {:induction false} FullSizes(len: nat)
    requires 1 <= len <= 16
    ensures Base(FULL, len) == (if len <= 8 then 0 else 256) && First(FULL, len) == if len <= 8 then 0 else Pow2(len)
    ensures Max(FULL, len) == (if len < 8 then 0 else Pow2(len)) && Fits(FULL, len)
  {
    assert Pow2(8) == 256 by { Pow2Values(); }
    hide Pow2;
    if len == 1 {
      assert Fits(FULL, 0);
    } else {
      FullSizes(len - 1);
      PowerNext(len - 1);
    }
  }

  lemma PowerNext(n: nat)
    ensures Pow2(n + 1) == 2 * Pow2(n) && Pow2(n) >= 1
  {
  }

  lemma FullWellFormed()
    ensures WellFormed(FULL)
  {
    FullSizes(16);
    assert Base(FULL, 17) == Base(FULL, 16) + FULL.lens[15];
    hide Base, Fits;
  }

  lemma FullHas(symbol: byte)
    ensures symbol in FULL.vals
  {
    assert FULL.vals[symbol] == symbol;
  }

  lemma SizeSmall(a: nat)
    requires a < 0x8000
    ensures SizeOf(a) < 16
  {
    if SizeOf(a) >= 16 {
      SizeBounds(a);
      PowerMono(15, SizeOf(a) - 1);
      assert Pow2(15) == 0x8000 by { Pow2Values(); PowerNext(15); }
    }
  }

  /** It is a table, and has codes for all runs and values that four bits can tell the
      length and the size of. */
  lemma FullCodes(item: Item)
    requires item.run < 16 && -0x8000 < item.value < 0x8000
    ensures WellFormed(FULL) && Codable(FULL, item)
  {
    FullWellFormed();
    SizeSmall(Abs(item.value));
    hide SizeOf, WellFormed, FULL;
    FullHas(item.run * 16 + SizeOf(Abs(item.value)));
  }

  lemma {:induction false} PowerMono(m: nat, n: nat)
    requires m <= n
    ensures Pow2(m) <= Pow2(n)
  {
    if m == n {
    } else {
      PowerMono(m, n - 1);
    }
  }

  /** So it has codes for all items of such coefficients. */
  lemma {:induction false} FullCodesAll(zz: seq<int>, k: nat, r: nat)
    requires 1 <= k <= 64 == |zz| && forall m :: 0 <= m < 64 ==> -0x8000 < zz[m] < 0x8000
    ensures AllCodable(FULL, RunLength(zz, k, r))
    decreases 64 - k, r
  {
    hide Codable;
    FullCodes(EOB);
    FullCodes(ZRL);
    if k == 64 {
    } else if zz[k] == 0 {
      FullCodesAll(zz, k + 1, r + 1);
    } else if r > 15 {
      FullCodesAll(zz, k, r - 16);
    } else {
      FullCodes(Item(r, zz[k]));
      FullCodesAll(zz, k + 1, 0);
    }
  }
}
