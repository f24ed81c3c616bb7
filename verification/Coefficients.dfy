/** DEC_REC and dec_rec2: one run and value decoded with the lookup table. */
module Coefficients {
  import opened Bits
  import opened Machine
  import opened BitReaders
  import opened Huffman
  import opened DecodingTables

  const M_BADHUFF := -1

  /** The fields of a lookup entry; DEC_REC takes them apart. */
  datatype Fields = Fields(known: bool, back: nat, run: nat, value: int)

  function FieldsOf(i: int): Fields {
    Fields(i / 128 % 2 == 1, i % 128, i / 256 % 16, i / 0x10000)
  }

  /** What the entry behind the next ten bits says of the code they begin with. */
  ghost predicate Means(i: int, t: Table, s: seq<bool>, pos: nat, len: nat)
    requires WellFormed(t) && CodeAt(t, s, pos, len)
  {
    var symbol, f := Symbol(t, len, Num(s, pos, len)), FieldsOf(i);
    var size := symbol % 16;
    && i != 0 && len <= DECBITS && f.run == symbol / 16
    && (if len + size <= DECBITS then
          f.known && f.back == DECBITS - len - size && f.value == Extend(Num(s, pos + len, size), size)
        else
          !f.known && f.back == DECBITS - len && f.value == size)
  }

  lemma PackedFields(t: Table, s: seq<bool>, pos: nat, len: nat)
    requires WellFormed(t) && CodeAt(t, s, pos, len) && len <= DECBITS
    ensures Means(Packed(Symbol(t, len, Num(s, pos, len)), len, Num(s, pos + len, DECBITS - len)), t, s, pos, len)
  {
    var symbol, d := Symbol(t, len, Num(s, pos, len)), Num(s, pos + len, DECBITS - len);
    if len + symbol % 16 <= DECBITS {
      PackedValue(symbol, len, d, s, pos);
    } else {
      PackedSize(symbol, len, d);
    }
    hide Symbol, CodeAt, WellFormed, Extend, Num, Packed, FieldsOf;
  }

  /** The value is in the ten bits too. */
  lemma PackedValue(symbol: byte, len: nat, d: nat, s: seq<bool>, pos: nat)
    requires 1 <= len && len + symbol % 16 <= DECBITS && d == Num(s, pos + len, DECBITS - len)
    ensures var size := symbol % 16;
            FieldsOf(Packed(symbol, len, d)) ==
            Fields(true, DECBITS - len - size, symbol / 16, Extend(Num(s, pos + len, size), size))
            && Packed(symbol, len, d) != 0
  {
    var run: int, size := symbol / 16, symbol % 16;
    NumSplit(s, pos + len, size, DECBITS - len - size);
    hide Extend, Shr, Num;
    Unpack(Extend(Num(s, pos + len, size), size), run, 1, DECBITS - len - size);
  }

  lemma PackedSize(symbol: byte, len: nat, d: nat)
    requires 1 <= len <= DECBITS && len + symbol % 16 > DECBITS
    ensures FieldsOf(Packed(symbol, len, d)) == Fields(false, DECBITS - len, symbol / 16, symbol % 16)
    ensures Packed(symbol, len, d) != 0
  {
    hide Extend, Shr;
    var run: int := symbol / 16;
    Unpack(symbol % 16, run, 0, DECBITS - len);
  }

  /** A code of at most ten bits is found by one lookup. */
  lemma LookupShort(t: Table, s: seq<bool>, pos: nat, len: nat)
    requires WellFormed(t) && CodeAt(t, s, pos, len) && len <= DECBITS
    ensures Means(Entry(t, Num(s, pos, DECBITS)), t, s, pos, len)
  {
    hide Means, Packed;
    var x := Num(s, pos, DECBITS);
    NumSplit(s, pos, len, DECBITS - len);
    ShortFinds(t, x, 1, len);
    PackedFields(t, s, pos, len);
  }

  lemma Pow2Of17()
    ensures Pow2(17) == 0x20000
  {
    Pow2Values();
  }

  /** One bit more: a code of this length at last, or again beyond them all. */
  lemma LongerCode(t: Table, s: seq<bool>, pos: nat, n: nat)
    requires WellFormed(t) && DECBITS <= n <= 16
    requires Num(s, pos, n) >= Max(t, n)
    ensures !CodeAt(t, s, pos, n)
    ensures n < 16 ==> (Num(s, pos, n + 1) < Max(t, n + 1) <==> CodeAt(t, s, pos, n + 1))
  {
  }

  /** The loop of dec_rec2 over the codes of more than ten bits. */
  method LongCode(input: BitReader, hu: DecTables, c0: nat, ghost t: Table) returns (c: nat, i: nat)
    requires input.Valid() && Decodes(hu, t) && input.pos >= DECBITS
    requires var s, start := input.Source(), input.pos - DECBITS;
             && c0 == Num(s, start, DECBITS) >= Max(t, DECBITS)
             && forall len :: 1 <= len < DECBITS ==> !CodeAt(t, s, start, len)
    modifies input`p, input`bits, input`left, input`marker, input`last, input`pos
    ensures input.Valid() && DECBITS <= i <= 16
    ensures var s, start := input.Source(), old(input.pos) - DECBITS;
            && input.pos == start + i + 1 && c == Num(s, start, i + 1)
            && (forall len :: 1 <= len <= i ==> !CodeAt(t, s, start, len))
            && (i < 16 ==> CodeAt(t, s, start, i + 1))
            && (i == 16 ==> !HasCode(t, s, start))
  {
    hide BitReaders.WindowAt, BitReaders.InputAt, BitReaders.BitsOf, First, Base, Fits, CodeAt;
    hide Entries, HasCode, BitReaders.SegmentAt, BitReaders.Terminated;
    ghost var s, start := input.Source(), input.pos - DECBITS;
    i := DECBITS;
    var b := input.GetBits(1);
    c := 2 * c0 + b;
    LongerCode(t, s, start, i);
    while c >= hu.maxcode[i]
      invariant input.Valid() && input.Source() == s && DECBITS <= i <= 16
      invariant input.pos == start + i + 1 && c == Num(s, start, i + 1)
      invariant forall len :: 1 <= len <= i ==> !CodeAt(t, s, start, len)
      invariant i < 16 ==> (c < Max(t, i + 1) <==> CodeAt(t, s, start, i + 1))
      decreases 16 - i
    {
      NumBound(s, start, i + 1);
      Pow2Of17();
      i := i + 1;
      b := input.GetBits(1);
      c := 2 * c + b;
      LongerCode(t, s, start, i);
    }
    if i == 16 { NoLongerCode(t, s, start); }
  }

  lemma NoLongerCode(t: Table, s: seq<bool>, start: nat)
    requires WellFormed(t) && forall len :: 1 <= len <= 16 ==> !CodeAt(t, s, start, len)
    ensures !HasCode(t, s, start)
  {
  }

  /** The size bits after a code, and EXTEND. */
  method Receive(input: BitReader, size: nat) returns (v: int)
    requires input.Valid() && size < 16
    modifies input`p, input`bits, input`left, input`marker, input`last, input`pos
    ensures input.Valid() && input.pos == old(input.pos) + size
    ensures v == Extend(Num(input.Source(), old(input.pos), size), size)
  {
    hide BitReaders.WindowAt, BitReaders.InputAt, BitReaders.BitsOf;
    if size == 0 {
      return 0;
    }
    v := input.GetBits(size);
    if v < Pow2(size - 1) {
      v := v - Pow2(size) + 1;
    }
  }

  /** What decoding from bit start on has to deliver, for whichever code is there. */
  ghost predicate Delivers(t: Table, s: seq<bool>, start: nat, run: nat, v: int, pos: nat)
    requires WellFormed(t)
  {
    forall len :: CodeAt(t, s, start, len) ==> DeliversCode(t, s, start, len, run, v, pos)
  }

  ghost predicate DeliversCode(t: Table, s: seq<bool>, start: nat, len: nat, run: nat, v: int, pos: nat)
    requires WellFormed(t) && CodeAt(t, s, start, len)
  {
    var r := Received(t, s, start, len);
    run == r.run && v == r.value && pos == start + r.used
  }

  ghost predicate HasCode(t: Table, s: seq<bool>, start: nat)
    requires WellFormed(t)
  {
    exists len :: CodeAt(t, s, start, len)
  }

  lemma DeliversUnique(t: Table, s: seq<bool>, start: nat, len: nat, run: nat, v: int, pos: nat)
    requires WellFormed(t) && CodeAt(t, s, start, len) && DeliversCode(t, s, start, len, run, v, pos)
    ensures Delivers(t, s, start, run, v, pos) && HasCode(t, s, start)
  {
    hide DeliversCode, CodeAt;
    forall m | CodeAt(t, s, start, m)
      ensures DeliversCode(t, s, start, m, run, v, pos)
    {
      CodeAtUnique(t, s, start, len, m);
    }
  }

  /** A lookup entry that is not zero stands for the code that is there. */
  lemma LookupCode(t: Table, s: seq<bool>, start: nat) returns (len: nat)
    requires WellFormed(t) && Entry(t, Num(s, start, DECBITS)) != 0
    ensures CodeAt(t, s, start, len) && Means(Entry(t, Num(s, start, DECBITS)), t, s, start, len)
  {
    hide Means, Packed;
    var x := Num(s, start, DECBITS);
    ShortCode(t, x, 1);
    len := Short(t, x, 1);
    NumSplit(s, start, len, DECBITS - len);
    LookupShort(t, s, start, len);
  }

  lemma LookupNone(t: Table, s: seq<bool>, start: nat)
    requires WellFormed(t) && Entry(t, Num(s, start, DECBITS)) == 0
    ensures Num(s, start, DECBITS) >= Max(t, DECBITS)
    ensures forall len :: 1 <= len <= DECBITS ==> !CodeAt(t, s, start, len)
  {
    EntryNonZero(t, Num(s, start, DECBITS));
    forall len | 1 <= len <= DECBITS
      ensures !CodeAt(t, s, start, len)
    {
      if CodeAt(t, s, start, len) { LookupShort(t, s, start, len); }
    }
  }

  /** dec_rec2: c is the next ten bits, i the entry behind them. */
  method DecRec2(input: BitReader, hu: DecTables, c: nat, i: int, ghost t: Table)
    returns (run: nat, v: int)
    requires input.Valid() && Decodes(hu, t) && input.pos >= input.last == DECBITS
    requires c == Num(input.Source(), input.pos - DECBITS, DECBITS)
    requires i == Entry(t, c) && !FieldsOf(i).known
    modifies input`p, input`bits, input`left, input`marker, input`last, input`pos
    ensures HasCode(t, input.Source(), old(input.pos) - DECBITS) ==>
              input.Valid() && Delivers(t, input.Source(), old(input.pos) - DECBITS, run, v, input.pos)
    ensures !HasCode(t, input.Source(), old(input.pos) - DECBITS) ==>
              input.marker == M_BADHUFF && run == c && v == 0
  {
    hide BitReaders.WindowAt, BitReaders.InputAt, BitReaders.BitsOf, First, Base, Fits, CodeAt;
    hide Entries, Entry, Delivers, HasCode;
    ghost var s, start, len := input.Source(), input.pos - DECBITS, 0;
    var size: nat;
    if i != 0 {
      len := LookupCode(t, s, start);
      input.UngetBits(i % 128);
      run, size := i / 256 % 16, i / 0x10000;
    } else {
      LookupNone(t, s, start);
      var left, bits := input.left, input.bits;
      var code, n := LongCode(input, hu, c, t);
      if n >= 16 {
        input.marker, input.left, input.bits := M_BADHUFF, left, bits;
        return c, 0;
      }
      len := n + 1;
      LongSymbol(t, s, start, n);
      var symbol := hu.vals[hu.valptr[n] + code - hu.maxcode[n - 1] * 2];
      run, size := symbol / 16, symbol % 16;
    }
    v := Receive(input, size);
    DeliversUnique(t, s, start, len, run, v, input.pos);
  }

  /** DEC_REC: whatever the length of the code, the run, the value and the bits
      used are those of decoding bit by bit. */
  method DecRec(input: BitReader, hu: DecTables, ghost t: Table) returns (run: nat, v: int)
    requires input.Valid() && Decodes(hu, t)
    modifies input`p, input`bits, input`left, input`marker, input`last, input`pos
    ensures HasCode(t, input.Source(), old(input.pos)) ==>
              input.Valid() && Delivers(t, input.Source(), old(input.pos), run, v, input.pos)
    ensures !HasCode(t, input.Source(), old(input.pos)) ==> input.marker == M_BADHUFF && v == 0
  {
    hide BitReaders.WindowAt, BitReaders.InputAt, BitReaders.BitsOf, First, Base, Fits, CodeAt;
    hide Entry, Delivers, HasCode;
    ghost var s, start := input.Source(), input.pos;
    run := input.GetBits(DECBITS);
    NumBound(s, start, DECBITS);
    Pow2Values();
    var i := hu.llvals[run];
    if i / 128 % 2 == 1 {
      ghost var len := LookupCode(t, s, start);
      input.UngetBits(i % 128);
      run, v := i / 256 % 16, i / 0x10000;
      DeliversUnique(t, s, start, len, run, v, input.pos);
    } else {
      run, v := DecRec2(input, hu, run, i, t);
    }
  }

  /** The index computed for a long code is that of its symbol. */
  lemma LongSymbol(t: Table, s: seq<bool>, start: nat, n: nat)
    requires WellFormed(t) && DECBITS <= n < 16 && CodeAt(t, s, start, n + 1)
    ensures var k := Base(t, n + 1) + Num(s, start, n + 1) - Max(t, n) * 2;
            0 <= k < |t.vals| && t.vals[k] == Symbol(t, n + 1, Num(s, start, n + 1))
  {
    BaseMono(t, n + 2, 17);
  }
}
