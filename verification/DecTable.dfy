/** The decoding tables of the JPEG decoder: dec_makehuff fills them and DEC_REC
    decodes one coefficient with them. */
module DecodingTables {
  import opened Bits
  import opened Machine
  import opened Huffman

  const DECBITS := 10

  /** The length of the code, of at most ten bits, that the ten bits x begin with;
      zero if there is none. */
  function Short(t: Table, x: nat, len: nat): nat
    requires |t.lens| == 16 && 1 <= len <= DECBITS + 1
    decreases DECBITS + 1 - len
  {
    if len == DECBITS + 1 then 0
    else if IsCode(t, len, Shr(x, DECBITS - len)) then len
    else Short(t, x, len + 1)
  }

  /** The layout of a lookup entry; d is what follows the code in the ten bits.
      A value that fits: value, run, 1, bits to push back. Otherwise: size, run,
      0, bits to push back. The fields do not overlap, so their sum is their union. */
  function Packed(symbol: byte, len: nat, d: nat): int
    requires 1 <= len <= DECBITS
  {
    var run, size := symbol / 16, symbol % 16;
    if len + size <= DECBITS then
      Extend(Shr(d, DECBITS - len - size), size) * 0x10000 + run * 256 + 128 + (DECBITS - len - size)
    else
      size * 0x10000 + run * 256 + (DECBITS - len)
  }

  lemma ShortCode(t: Table, x: nat, len: nat)
    requires |t.lens| == 16 && 1 <= len <= DECBITS + 1
    ensures var n := Short(t, x, len); n == 0 || (len <= n <= DECBITS && IsCode(t, n, Shr(x, DECBITS - n)))
    decreases DECBITS + 1 - len
  {
  }

  function Entry(t: Table, x: nat): int
    requires WellFormed(t)
  {
    var len := Short(t, x, 1);
    if len == 0 then 0
    else
      ShortCode(t, x, 1);
      Packed(Symbol(t, len, Shr(x, DECBITS - len)), len, Low(x, DECBITS - len))
  }

  /** A short code is found. */
  lemma {:induction false} ShortFinds(t: Table, x: nat, from: nat, len: nat)
    requires |t.lens| == 16 && 1 <= from <= len <= DECBITS
    requires IsCode(t, len, Shr(x, DECBITS - len))
    ensures Short(t, x, from) == len
    decreases len - from
  {
    if from == len {
    } else {
      ShrShr(x, DECBITS - len, len - from);
      hide Shr, First, Max;
      if IsCode(t, from, Shr(x, DECBITS - from)) {
        PrefixFree(t, from, len, Shr(x, DECBITS - len));
      }
      ShortFinds(t, x, from + 1, len);
    }
  }

  /** The entries that are set are those below Max(t, 10); they are not zero. */
  lemma EntryNonZero(t: Table, x: nat)
    requires WellFormed(t)
    ensures Entry(t, x) != 0 <==> x < Max(t, DECBITS)
  {
    assert Shr(x, 0) == x;
    hide Shr, Extend, Base;
    ShortCode(t, x, 1);
    var len := Short(t, x, 1);
    if len != 0 {
      if len < DECBITS { ExtensionBelow(t, len, DECBITS, x); }
    } else {
      Uncovered(t, x, DECBITS);
    }
  }

  /** Above every shorter code and no code itself: beyond the codes of its length. */
  lemma {:induction false} Uncovered(t: Table, x: nat, len: nat)
    requires |t.lens| == 16 && 1 <= len <= DECBITS && Short(t, x, 1) == 0
    ensures Shr(x, DECBITS - len) >= Max(t, len)
  {
    if IsCode(t, len, Shr(x, DECBITS - len)) { ShortFinds(t, x, 1, len); }
    if len > 1 {
      Uncovered(t, x, len - 1);
      ShrShr(x, DECBITS - len, 1);
      var c := Shr(x, DECBITS - len);
      assert Shr(c, 1) == c / 2;
    }
  }

  /** The fields of an entry are read back by masks and shifts. */
  lemma Unpack(v: int, run: nat, flag: nat, u: nat)
    requires run < 16 && flag < 2 && u < 128
    ensures var i := v * 0x10000 + run * 256 + flag * 128 + u;
            i / 128 % 2 == flag && i % 128 == u && i / 256 % 16 == run && i / 0x10000 == v
  {
    var i := v * 0x10000 + run * 256 + flag * 128 + u;
    DivModUnique(i, 128, v * 512 + run * 2 + flag, u);
    DivModUnique(v * 512 + run * 2 + flag, 2, v * 256 + run, flag);
    DivModUnique(i, 256, v * 256 + run, flag * 128 + u);
    DivModUnique(v * 256 + run, 16, v * 16, run);
    DivModUnique(i, 0x10000, v, run * 256 + flag * 128 + u);
  }

  /** The tables as the decoder reads them. */
  datatype DecTables = DecTables(maxcode: seq<int>, valptr: seq<nat>, vals: seq<byte>, llvals: seq<int>)

  /** They are those that decode t. */
  ghost predicate Decodes(hu: DecTables, t: Table) {
    && WellFormed(t)
    && |hu.maxcode| == 17 && |hu.valptr| == 16 && |hu.vals| == 256
    && hu.llvals == Entries(t) && hu.maxcode[16] == 0x20000
    && (forall i :: 0 <= i < 16 ==> hu.maxcode[i] == Max(t, i + 1) && hu.valptr[i] == Base(t, i + 1))
    && hu.vals[..|t.vals|] == t.vals
  }

  class DecTable {
    const maxcode: array<int>
    const valptr: array<nat>
    const vals: array<byte>
    const llvals: array<int>

    ghost function Repr(): set<object> {
      {maxcode as object, valptr as object, vals as object, llvals as object}
    }

    ghost predicate Allocated() {
      && maxcode.Length == 17 && valptr.Length == 16 && vals.Length == 256
      && llvals.Length == 1024
    }

    /** The contents of the arrays. */
    ghost function Contents(): DecTables
      reads Repr()
    {
      DecTables(maxcode[..], valptr[..], vals[..], llvals[..])
    }

    ghost predicate Sizes(t: Table, n: nat)
      reads maxcode, valptr
      requires Allocated() && WellFormed(t) && n <= 16
    {
      forall i :: 0 <= i < n ==> maxcode[i] == Max(t, i + 1) && valptr[i] == Base(t, i + 1)
    }

    ghost predicate Values(t: Table, n: nat)
      reads vals
      requires Allocated() && WellFormed(t) && n <= |t.vals|
    {
      forall k :: 0 <= k < n ==> vals[k] == t.vals[k]
    }

    /** The entries below n are in place, the others still zero. */
    ghost predicate Lookup(entries: seq<int>, n: nat)
      reads llvals
      requires Allocated() && |entries| == 1024
    {
      forall x :: 0 <= x < 1024 ==> llvals[x] == if x < n then entries[x] else 0
    }

    constructor ()
      ensures Allocated() && fresh(Repr())
    {
      maxcode := new int[17];
      valptr := new nat[16];
      vals := new byte[256];
      llvals := new int[1024];
    }

    /** dec_makehuff: assigns the codes in order and fills, for each code of at
        most ten bits, every entry it is a prefix of. */
    method MakeHuff(t: Table)
      requires Allocated() && WellFormed(t)
      modifies Repr()
      ensures Decodes(Contents(), t)
    {
      Clear();
      ghost var entries := Entries(t);
      ShlMul(0, DECBITS - 1, 0);
      var code: nat, k: nat := 0, 0;
      for i := 0 to 16
        invariant i < 16 ==> code == First(t, i + 1)
        invariant k == Base(t, i + 1) <= |t.vals|
        invariant Sizes(t, i) && Values(t, k) && Lookup(entries, Frontier(t, i, code))
      {
        code, k := MakeSize(t, i, code, k, entries);
      }
      maxcode[16] := 0x20000;
      EntriesBeyond(t);
    }

    method Clear()
      requires Allocated()
      modifies llvals
      ensures forall x :: 0 <= x < 1024 ==> llvals[x] == 0
    {
      for x := 0 to 1024
        invariant forall y :: 0 <= y < x ==> llvals[y] == 0
      {
        llvals[x] := 0;
      }
    }

    /** The body of the loop over the sizes. */
    method MakeSize(t: Table, i: nat, code0: nat, k0: nat, ghost entries: seq<int>)
      returns (code: nat, k: nat)
      requires Allocated() && WellFormed(t) && i < 16 && entries == Entries(t)
      requires code0 == First(t, i + 1) && k0 == Base(t, i + 1) <= |t.vals|
      requires Sizes(t, i) && Values(t, k0) && Lookup(entries, Frontier(t, i, code0))
      modifies Repr()
      ensures i < 15 ==> code == First(t, i + 2)
      ensures k == Base(t, i + 2) <= |t.vals|
      ensures Sizes(t, i + 1) && Values(t, k) && Lookup(entries, Frontier(t, i + 1, code))
    {
      hide Entries, Frontier, Fits, Pow2;
      BaseMono(t, i + 2, 17);
      valptr[i] := k0;
      code, k := MakeCodes(t, i, code0, k0, entries);
      maxcode[i] := code;
      NextSize(t, i, code);
      code := 2 * code;
    }

    /** The loop over the codes of one size. */
    method MakeCodes(t: Table, i: nat, code0: nat, k0: nat, ghost entries: seq<int>)
      returns (code: nat, k: nat)
      requires Allocated() && WellFormed(t) && i < 16 && entries == Entries(t)
      requires code0 == First(t, i + 1) && k0 == Base(t, i + 1) && k0 + t.lens[i] <= |t.vals|
      requires Values(t, k0) && Lookup(entries, Frontier(t, i, code0))
      modifies vals, llvals
      ensures code == Max(t, i + 1) && k == k0 + t.lens[i]
      ensures Values(t, k) && Lookup(entries, Frontier(t, i, code))
    {
      hide Entries, EntriesFrom, Shl, Fits, First, Pow2;
      code, k := code0, k0;
      for j := 0 to t.lens[i]
        invariant code == code0 + j && k == k0 + j
        invariant Values(t, k) && Lookup(entries, Frontier(t, i, code))
      {
        vals[k] := t.vals[k];
        if i < DECBITS {
          EntriesAt(t, i, code, k);
          FillCode(t, i, code, k, entries);
        }
        code, k := code + 1, k + 1;
      }
    }

    /** The loop over d: all entries whose first i + 1 bits are code. */
    method FillCode(ghost t: Table, i: nat, code: nat, k: nat, ghost entries: seq<int>)
      requires Allocated() && WellFormed(t) && i < DECBITS && k < 256 && |entries| == 1024
      requires EntriesFrom(entries, Frontier(t, i, code), Pow2(DECBITS - 1 - i), vals[k], i + 1)
      requires Lookup(entries, Frontier(t, i, code))
      modifies llvals
      ensures Lookup(entries, Frontier(t, i, code) + Pow2(DECBITS - 1 - i))
    {
      hide Shl, Packed, Fits, Pow2;
      var c, n := Shl(code, DECBITS - 1 - i, 0), Pow2(DECBITS - 1 - i);
      var d := n;
      while d > 0
        invariant d <= n
        invariant forall x :: 0 <= x < 1024 ==>
                    llvals[x] == if x < c || c + d <= x < c + n then entries[x] else 0
      {
        d := d - 1;
        var x := MakeEntry(vals[k], i, d);
        llvals[c + d] := x;
      }
    }

    /** The body of the loop over d. */
    static method MakeEntry(symbol: byte, i: nat, d: nat) returns (x: int)
      requires i < DECBITS
      ensures x == Packed(symbol, i + 1, d)
    {
      var run: int, v: nat := symbol / 16, symbol % 16;
      if v + i < DECBITS {
        x := Shr(d, DECBITS - 1 - v - i);
        if v != 0 && x < Pow2(v - 1) {
          x := x - Pow2(v) + 1;
        }
        x := x * 0x10000 + run * 256 + (DECBITS - (i + 1 + v)) + 128;
      } else {
        x := v * 0x10000 + run * 256 + (DECBITS - (i + 1));
      }
    }
  }

  ghost function Entries(t: Table): (entries: seq<int>)
    requires WellFormed(t)
    ensures |entries| == 1024
  {
    seq(1024, x requires 0 <= x => Entry(t, x))
  }

  ghost predicate EntriesFrom(entries: seq<int>, c: nat, n: nat, symbol: byte, len: nat)
    requires 1 <= len <= DECBITS
  {
    c + n <= |entries| && forall x :: c <= x < c + n ==> entries[x] == Packed(symbol, len, x - c)
  }

  /** How far the lookup entries are filled once the codes of length i + 1 below
      code have been dealt with. */
  ghost function Frontier(t: Table, i: nat, code: nat): nat
    requires WellFormed(t)
  {
    if i < DECBITS then Shl(code, DECBITS - 1 - i, 0) else Max(t, DECBITS)
  }

  lemma {:induction false} FrontierBound(m: nat, c: nat, k: nat)
    requires c <= Pow2(m)
    ensures Shl(c, k, 0) <= Pow2(m + k)
  {
    if k == 0 {
    } else {
      FrontierBound(m, c, k - 1);
    }
  }

  lemma NextSize(t: Table, i: nat, code: nat)
    requires WellFormed(t) && i < 16 && code == Max(t, i + 1)
    ensures Frontier(t, i + 1, 2 * code) == Frontier(t, i, code)
    ensures i < 15 ==> 2 * code == First(t, i + 2)
  {
    if i < DECBITS - 1 { ShlAdd(code, DECBITS - 1 - i, 0); }
  }

  /** The entry behind code and the bits d is decided by code alone. */
  lemma EntryAt(t: Table, i: nat, code: nat, k: nat, d: nat)
    requires WellFormed(t) && i < DECBITS && IsCode(t, i + 1, code) && d < Pow2(DECBITS - 1 - i)
    requires k == Base(t, i + 1) + code - First(t, i + 1) && k < |t.vals|
    ensures Entry(t, Shl(code, DECBITS - 1 - i, 0) + d) == Packed(t.vals[k], i + 1, d)
  {
    hide Packed, Shl, Shr, Low, First, Max, Base, Pow2;
    var n := DECBITS - 1 - i;
    ShlAdd(code, n, d);
    ShrShl(code, n, d);
    LowBound(d, n);
    ShortFinds(t, Shl(code, n, d), 1, i + 1);
  }

  /** The entries behind one code form the next stretch of the table. */
  lemma EntriesAt(t: Table, i: nat, code: nat, k: nat)
    requires WellFormed(t) && i < DECBITS && IsCode(t, i + 1, code)
    requires k == Base(t, i + 1) + code - First(t, i + 1) && k < |t.vals|
    ensures EntriesFrom(Entries(t), Frontier(t, i, code), Pow2(DECBITS - 1 - i), t.vals[k], i + 1)
    ensures Frontier(t, i, code + 1) == Frontier(t, i, code) + Pow2(DECBITS - 1 - i)
  {
    hide Packed, Entry, Shl, First, Max, Base;
    FrontierStep(t, i, code);
    var entries, c := Entries(t), Frontier(t, i, code);
    forall x | c <= x < c + Pow2(DECBITS - 1 - i)
      ensures entries[x] == Packed(t.vals[k], i + 1, x - c)
    {
      EntryAt(t, i, code, k, x - c);
    }
  }

  lemma FrontierStep(t: Table, i: nat, code: nat)
    requires WellFormed(t) && i < DECBITS && code < Max(t, i + 1)
    ensures Frontier(t, i, code + 1) == Frontier(t, i, code) + Pow2(DECBITS - 1 - i) <= 1024
  {
    hide Shl, First, Max;
    ShlAdd(code, DECBITS - 1 - i, 0);
    FitsAt(t, 16, i + 1);
    FrontierBound(i + 1, code + 1, DECBITS - 1 - i);
    Pow2Values();
  }

  /** The entries beyond every short code are zero. */
  lemma EntriesBeyond(t: Table)
    requires WellFormed(t)
    ensures forall x :: Max(t, DECBITS) <= x < 1024 ==> Entries(t)[x] == 0
  {
    forall x | Max(t, DECBITS) <= x < 1024
      ensures Entries(t)[x] == 0
    {
      EntryNonZero(t, x);
    }
  }
}
