/** The scan of an image as section F.1 of ITU-T T.81 encodes it: a segment for each
    restart interval, padded, stuffed and ended by a marker. */
module ScanCoding {
  import opened Blocks
  import opened Bits
  import opened Machine
  import opened BitReaders
  import McuCoding
  import opened Mcus
  import opened Frames
  import opened DecodingTables
  import opened Yuv

  /** Bits made up to whole bytes by ones (section F.1.2.3). */
  function Padding(n: nat): (p: nat)
    ensures p < 8 && (n + p) % 8 == 0
  {
    (8 - n % 8) % 8
  }

  function Pad(bits: seq<bool>): (s: seq<bool>)
    ensures |s| % 8 == 0 && |s| < |bits| + 8
  {
    bits + seq(Padding(|bits|), _ => true)
  }

  /** Eight bits a byte. */
  function Pack(bits: seq<bool>): seq<byte> {
    if |bits| < 8 then []
    else
      NumBound(bits, 0, 8);
      Pow2Values();
      [Num(bits, 0, 8)] + Pack(bits[8..])
  }

  /** Writing the number of some bits gives the bits. */
  lemma {:induction false} WordNum(s: seq<bool>, i: nat, n: nat)
    requires i + n <= |s|
    ensures Word(Num(s, i, n), n) == s[i..i + n]
  {
    if n == 0 {
    } else {
      WordNum(s, i, n - 1);
      assert Num(s, i, n) / 2 == Num(s, i, n - 1) && Num(s, i, n) % 2 == Bit(s, i + n - 1);
      assert s[i..i + n] == s[i..i + n - 1] + [s[i + n - 1]];
      hide Num;
    }
  }

  /** The bytes hold the bits. */
  lemma {:induction false} PackBits(bits: seq<bool>)
    requires |bits| % 8 == 0
    ensures BitsOf(Pack(bits)) == bits
  {
    if |bits| >= 8 {
      PackBits(bits[8..]);
      WordNum(bits, 0, 8);
      assert Pack(bits)[1..] == Pack(bits[8..]) && Pack(bits)[0] == Num(bits, 0, 8);
      hide Word, Num, Pack;
      assert bits == bits[0..0 + 8] + bits[8..];
    }
  }

  /** A segment ends before MCU k: at the end of the image, or where a restart marker
      is due. */
  predicate SegmentEnds(dri: nat, n: nat, k: nat) {
    k == n || Due(dri, k)
  }

  /** Where the segment ends that MCU k is in. */
  function EndOf(dri: nat, n: nat, k: nat): (e: nat)
    requires k <= n
    ensures k <= e <= n && (k < n ==> k < e) && SegmentEnds(dri, n, e)
    decreases n - k
  {
    if k == n then n else if SegmentEnds(dri, n, k + 1) then k + 1 else EndOf(dri, n, k + 1)
  }

  function MarkerAt(dri: nat, n: nat, e: nat): (m: byte)
    requires SegmentEnds(dri, n, e)
    ensures m != 0
  {
    if e == n then M_EOI else RstMarker(dri, e)
  }

  /** The bits of the MCUs from k on, up to the end of their segment. */
  ghost function SegmentBits(dri: nat, codings: seq<Coding>, preds: seq<int>, mcus: seq<Mcu>, k: nat): seq<bool>
    requires |codings| == |preds| == 3 && k <= |mcus|
    decreases |mcus| - k
  {
    if k == |mcus| then []
    else
      EncodeMcu(codings, preds, mcus[k], 0) +
      if SegmentEnds(dri, |mcus|, k + 1) then []
      else SegmentBits(dri, codings, PredsAfter(preds, mcus[k], 0), mcus, k + 1)
  }

  /** The bytes of the segments from the one on that begins with MCU k. */
  ghost function EncodeScan(dri: nat, codings: seq<Coding>, mcus: seq<Mcu>, k: nat): seq<byte>
    requires |codings| == 3 && k <= |mcus|
    decreases |mcus| - k
  {
    var e := EndOf(dri, |mcus|, k);
    Stuff(Pack(Pad(SegmentBits(dri, codings, [0, 0, 0], mcus, k)))) + [0xff, MarkerAt(dri, |mcus|, e)] +
    if e == |mcus| then [] else EncodeScan(dri, codings, mcus, e)
  }

  /** The tables have codes for all of the MCUs from k on. */
  ghost predicate CodableFrom(dri: nat, codings: seq<Coding>, preds: seq<int>, mcus: seq<Mcu>, k: nat)
    requires |codings| == |preds| == 3 && k <= |mcus|
    decreases |mcus| - k
  {
    k == |mcus| ||
    var now := if Due(dri, k) then [0, 0, 0] else preds;
    && CodableMcu(codings, now, mcus[k], 0)
    && CodableFrom(dri, codings, PredsAfter(now, mcus[k], 0), mcus, k + 1)
  }

  predicate Below(zz: Block) {
    forall m :: 0 <= m < 64 ==> -0x4000 < zz[m] < 0x4000
  }

  /** The same tables for all components, with codes for all that can be needed. */
  const FULL: seq<Coding> := [Coding(McuCoding.FULL, McuCoding.FULL), Coding(McuCoding.FULL, McuCoding.FULL),
                              Coding(McuCoding.FULL, McuCoding.FULL)]

  /** They have codes for every image whose coefficients are below 2^14. */
  lemma {:induction false} SomeCodings(dri: nat, p: int, u: int, v: int, mcus: seq<Mcu>, k: nat)
    requires k <= |mcus| && -0x4000 < p < 0x4000 && -0x4000 < u < 0x4000 && -0x4000 < v < 0x4000
    requires forall j, b :: 0 <= j < |mcus| && 0 <= b < 6 ==> Below(mcus[j][b])
    ensures CodableFrom(dri, FULL, [p, u, v], mcus, k)
    decreases |mcus| - k
  {
    hide Due, CodableMcu, PredsAfter, FULL;
    if k == |mcus| {
    } else {
      var m := mcus[k];
      assert Below(m[0]) && Below(m[1]) && Below(m[2]) && Below(m[3]) && Below(m[4]) && Below(m[5]);
      var p', u', v' := if Due(dri, k) then 0 else p, if Due(dri, k) then 0 else u, if Due(dri, k) then 0 else v;
      CodableSix(p', u', v', m);
      assert (if Due(dri, k) then [0, 0, 0] else [p, u, v]) == [p', u', v'];
      SomeCodings(dri, m[3][0], m[4][0], m[5][0], mcus, k + 1);
    }
  }

  lemma CodableSix(p: int, u: int, v: int, m: Mcu)
    requires -0x4000 < p < 0x4000 && -0x4000 < u < 0x4000 && -0x4000 < v < 0x4000
    requires Below(m[0]) && Below(m[1]) && Below(m[2]) && Below(m[3]) && Below(m[4]) && Below(m[5])
    ensures |FULL| == 3 && CodableMcu(FULL, [p, u, v], m, 0)
    ensures PredsAfter([p, u, v], m, 0) == [m[3][0], m[4][0], m[5][0]]
  {
    hide CodableMcu, PredsAfter, EncodeMcu, EncodeBlock, CodableBlock, WellFormedCoding, McuCoding.FULL;
    SomeCoding(p, m[0]);
    SomeCoding(m[0][0], m[1]);
    SomeCoding(m[1][0], m[2]);
    SomeCoding(m[2][0], m[3]);
    SomeCoding(u, m[4]);
    SomeCoding(v, m[5]);
    SixBlocks(FULL, p, u, v, m);
  }

  /** A scan ends with the marker EOI; the others are RST0 to RST7. */
  lemma {:induction false} ScanEnds(dri: nat, codings: seq<Coding>, mcus: seq<Mcu>, k: nat)
    requires |codings| == 3 && k <= |mcus|
    ensures var s := EncodeScan(dri, codings, mcus, k); |s| >= 2 && s[|s| - 2..] == [0xff, 0xd9]
    ensures k < |mcus| && Due(dri, k) ==> MarkerAt(dri, |mcus|, k) == 0xd0 + (k / dri - 1) % 8
    decreases |mcus| - k
  {
    hide Stuff, Pack, Pad, SegmentBits;
    var e := EndOf(dri, |mcus|, k);
    if e == |mcus| {
    } else {
      ScanEnds(dri, codings, mcus, e);
    }
  }

  /** The bytes w are in the input, from p on. */
  predicate Has(input: seq<byte>, p: nat, w: seq<byte>) {
    p + |w| <= |input| && input[p..p + |w|] == w
  }

  lemma HasConcat(input: seq<byte>, p: nat, v: seq<byte>, w: seq<byte>)
    requires Has(input, p, v + w)
    ensures Has(input, p, v) && Has(input, p + |v|, w)
  {
    SliceConcat(input, p, v, w);
  }

  /** From bit pos on the bytes hold these bits, and nothing more but padding. */
  ghost predicate Remaining(data: seq<byte>, pos: nat, bits: seq<bool>) {
    Spells(BitsOf(data), pos, bits) && |BitsOf(data)| < pos + |bits| + 8
  }

  lemma RemainingAll(bits: seq<bool>)
    ensures Remaining(Pack(Pad(bits)), 0, bits)
  {
    PackBits(Pad(bits));
    hide BitsOf, Pack;
  }

  lemma RemainingNext(data: seq<byte>, pos: nat, first: seq<bool>, tail: seq<bool>)
    requires Remaining(data, pos, first + tail)
    ensures Spells(BitsOf(data), pos, first) && Remaining(data, pos + |first|, tail)
  {
    SpellsConcat(BitsOf(data), pos, first, tail);
    hide BitsOf, Spells;
  }

  lemma RemainingNone(data: seq<byte>, pos: nat)
    requires Remaining(data, pos, [])
    ensures |BitsOf(data)| < pos + 8
  {
    hide BitsOf, Spells;
  }

  /** In a segment, before one of its MCUs: the rest of its bits, its marker, and the next
      segment are what the encoder has written. */
  ghost predicate InSegment(input: seq<byte>, dri: nat, codings: seq<Coding>, mcus: seq<Mcu>, k: nat, at: Position)
    requires |codings| == 3 && k <= |mcus|
  {
    |at.preds| == 3 &&
    var e := EndOf(dri, |mcus|, k);
    && Remaining(at.segment.data, at.pos, SegmentBits(dri, codings, at.preds, mcus, k))
    && at.segment.marker == MarkerAt(dri, |mcus|, e)
    && (e < |mcus| ==> Has(input, at.segment.next, EncodeScan(dri, codings, mcus, e)))
  }

  /** What the encoder has written for a segment, and what follows it. */
  lemma EncodeStep(input: seq<byte>, p: nat, dri: nat, codings: seq<Coding>, mcus: seq<Mcu>, k: nat)
    requires |codings| == 3 && k <= |mcus| && Has(input, p, EncodeScan(dri, codings, mcus, k))
    ensures var e := EndOf(dri, |mcus|, k);
            var data := Pack(Pad(SegmentBits(dri, codings, [0, 0, 0], mcus, k)));
            && Has(input, p, Stuff(data) + [0xff, MarkerAt(dri, |mcus|, e)])
            && (e < |mcus| ==> Has(input, p + |Stuff(data)| + 2, EncodeScan(dri, codings, mcus, e)))
  {
    hide *;
    var e := EndOf(dri, |mcus|, k);
    var segment := Stuff(Pack(Pad(SegmentBits(dri, codings, [0, 0, 0], mcus, k)))) + [0xff, MarkerAt(dri, |mcus|, e)];
    var rest := if e == |mcus| then [] else EncodeScan(dri, codings, mcus, e);
    EncodeIs(dri, codings, mcus, k);
    HasConcat(input, p, segment, rest);
  }

  lemma EncodeIs(dri: nat, codings: seq<Coding>, mcus: seq<Mcu>, k: nat)
    requires |codings| == 3 && k <= |mcus|
    ensures var e := EndOf(dri, |mcus|, k);
            EncodeScan(dri, codings, mcus, k) ==
            Stuff(Pack(Pad(SegmentBits(dri, codings, [0, 0, 0], mcus, k)))) + [0xff, MarkerAt(dri, |mcus|, e)] +
            if e == |mcus| then [] else EncodeScan(dri, codings, mcus, e)
  {
    hide Stuff, Pack, Pad, SegmentBits, EndOf, MarkerAt;
  }

  /** A segment that the encoder has written is found as it was. */
  lemma SegmentFound(input: seq<byte>, p: nat, dri: nat, codings: seq<Coding>, mcus: seq<Mcu>, k: nat)
    requires |codings| == 3 && k <= |mcus| && Has(input, p, EncodeScan(dri, codings, mcus, k))
    ensures Terminated(input, p)
    ensures InSegment(input, dri, codings, mcus, k, Position(SegmentAt(input, p), 0, [0, 0, 0]))
  {
    hide EncodeScan, SegmentBits, EndOf, MarkerAt, Stuff, Pack, Pad, Terminated, SegmentAt, Remaining;
    EncodeStep(input, p, dri, codings, mcus, k);
    var bits := SegmentBits(dri, codings, [0, 0, 0], mcus, k);
    ScanStuff(input, p, Pack(Pad(bits)), MarkerAt(dri, |mcus|, EndOf(dri, |mcus|, k)));
    hide Has;
    RemainingAll(bits);
  }

  /** The first MCU of what is left of a segment. */
  lemma FirstMcu(dri: nat, codings: seq<Coding>, preds: seq<int>, mcus: seq<Mcu>, k: nat)
    requires |codings| == |preds| == 3 && k < |mcus|
    ensures var first := EncodeMcu(codings, preds, mcus[k], 0);
            if SegmentEnds(dri, |mcus|, k + 1) then
              SegmentBits(dri, codings, preds, mcus, k) == first + [] && EndOf(dri, |mcus|, k) == k + 1
            else
              && SegmentBits(dri, codings, preds, mcus, k) ==
                 first + SegmentBits(dri, codings, PredsAfter(preds, mcus[k], 0), mcus, k + 1)
              && EndOf(dri, |mcus|, k) == EndOf(dri, |mcus|, k + 1)
  {
    hide EncodeMcu, PredsAfter, SegmentEnds;
  }

  lemma AfterIs(codings: seq<Coding>, m: Mcu, at: Position)
    requires |codings| == |at.preds| == 3
    ensures AfterMcu(codings, m, at) ==
            Position(at.segment, at.pos + |EncodeMcu(codings, at.preds, m, 0)|, PredsAfter(at.preds, m, 0))
  {
  }

  /** The bits of an MCU, and behind them those of the rest of its segment. */
  lemma McuInSegment(input: seq<byte>, dri: nat, codings: seq<Coding>, mcus: seq<Mcu>, k: nat, at: Position)
    requires |codings| == 3 && k < |mcus| && InSegment(input, dri, codings, mcus, k, at)
    requires CodableMcu(codings, at.preds, mcus[k], 0)
    ensures SpelledAt(codings, mcus[k], at)
    ensures !SegmentEnds(dri, |mcus|, k + 1) ==>
              InSegment(input, dri, codings, mcus, k + 1, AfterMcu(codings, mcus[k], at))
    ensures SegmentEnds(dri, |mcus|, k + 1) ==>
              && UsedUp(AfterMcu(codings, mcus[k], at)) && at.segment.marker == MarkerAt(dri, |mcus|, k + 1)
              && (k + 1 < |mcus| ==> Has(input, at.segment.next, EncodeScan(dri, codings, mcus, k + 1)))
  {
    hide EncodeScan, SegmentBits, EndOf, MarkerAt, EncodeMcu, PredsAfter, CodableMcu, Spells, BitsOf, SegmentEnds;
    hide Has, Remaining, AfterMcu;
    FirstMcu(dri, codings, at.preds, mcus, k);
    AfterIs(codings, mcus[k], at);
    var first := EncodeMcu(codings, at.preds, mcus[k], 0);
    if SegmentEnds(dri, |mcus|, k + 1) {
      RemainingNext(at.segment.data, at.pos, first, []);
      RemainingNone(at.segment.data, at.pos + |first|);
    } else {
      RemainingNext(at.segment.data, at.pos, first,
                    SegmentBits(dri, codings, PredsAfter(at.preds, mcus[k], 0), mcus, k + 1));
    }
  }

  /** Before MCU k, or before the restart marker that is due there, or at the end. */
  ghost predicate Stands(input: seq<byte>, dri: nat, codings: seq<Coding>, mcus: seq<Mcu>, k: nat, at: Position)
    requires |codings| == 3 && k <= |mcus|
  {
    && |at.preds| == 3 && CodableFrom(dri, codings, at.preds, mcus, k)
    && if SegmentEnds(dri, |mcus|, k) then
         && UsedUp(at) && at.segment.marker == MarkerAt(dri, |mcus|, k)
         && (k < |mcus| ==> Has(input, at.segment.next, EncodeScan(dri, codings, mcus, k)))
       else InSegment(input, dri, codings, mcus, k, at)
  }

  /** At such a place MCU k can be reached: past the restart marker, if one is due. */
  lemma McuReached(input: seq<byte>, dri: nat, codings: seq<Coding>, mcus: seq<Mcu>, k: nat, at: Position)
    requires |codings| == 3 && k < |mcus| && Stands(input, dri, codings, mcus, k, at)
    ensures RestartReady(input, dri, k, at) && AtMcu(input, dri, k, at).Some?
    ensures var at' := AtMcu(input, dri, k, at).value;
            && InSegment(input, dri, codings, mcus, k, at') && CodableMcu(codings, at'.preds, mcus[k], 0)
            && CodableFrom(dri, codings, PredsAfter(at'.preds, mcus[k], 0), mcus, k + 1)
  {
    hide InSegment, Has, EncodeScan, Terminated, SegmentAt, CodableMcu, PredsAfter, UsedUp, RstMarker;
    if Due(dri, k) {
      SegmentFound(input, at.segment.next, dri, codings, mcus, k);
    }
  }

  /** And after it the decoder stands before the next one. */
  lemma NextStands(input: seq<byte>, dri: nat, codings: seq<Coding>, mcus: seq<Mcu>, k: nat, at: Position)
    requires |codings| == 3 && k < |mcus| && InSegment(input, dri, codings, mcus, k, at)
    requires CodableMcu(codings, at.preds, mcus[k], 0)
    requires CodableFrom(dri, codings, PredsAfter(at.preds, mcus[k], 0), mcus, k + 1)
    ensures SpelledAt(codings, mcus[k], at)
    ensures Stands(input, dri, codings, mcus, k + 1, AfterMcu(codings, mcus[k], at))
  {
    McuInSegment(input, dri, codings, mcus, k, at);
    AfterIs(codings, mcus[k], at);
    hide InSegment, Has, EncodeScan, CodableMcu, CodableFrom, PredsAfter, UsedUp, SegmentEnds, MarkerAt, AfterMcu;
  }

  /** The rest of the scan can be decoded, without any error. */
  ghost predicate Faultless(input: seq<byte>, dri: nat, codings: seq<Coding>, mcus: seq<Mcu>, k: nat, at: Position)
    requires |codings| == 3 && k <= |mcus|
  {
    && |at.preds| == 3
    && Holds(input, dri, codings, mcus, k, at) && Verdict(input, dri, codings, mcus, k, at) == 0
  }

  lemma EndReached(input: seq<byte>, dri: nat, codings: seq<Coding>, mcus: seq<Mcu>, k: nat, at: Position)
    requires |codings| == 3 && k == |mcus| && Stands(input, dri, codings, mcus, k, at)
    ensures Faultless(input, dri, codings, mcus, k, at)
  {
    hide UsedUp, InSegment;
  }

  lemma FaultlessNext(input: seq<byte>, dri: nat, codings: seq<Coding>, mcus: seq<Mcu>, k: nat, at: Position)
    requires |codings| == |at.preds| == 3 && k < |mcus|
    requires RestartReady(input, dri, k, at) && AtMcu(input, dri, k, at).Some?
    requires var at' := AtMcu(input, dri, k, at).value;
             && SpelledAt(codings, mcus[k], at')
             && Faultless(input, dri, codings, mcus, k + 1, AfterMcu(codings, mcus[k], at'))
    ensures Faultless(input, dri, codings, mcus, k, at)
  {
    hide RestartReady, AtMcu, SpelledAt, AfterMcu;
  }

  /** One MCU of what the encoder has written. */
  lemma EncodedMcu(input: seq<byte>, dri: nat, codings: seq<Coding>, mcus: seq<Mcu>, k: nat, at: Position)
    returns (next: Position)
    requires |codings| == 3 && k < |mcus| && Stands(input, dri, codings, mcus, k, at)
    ensures Stands(input, dri, codings, mcus, k + 1, next)
    ensures Faultless(input, dri, codings, mcus, k + 1, next) ==> Faultless(input, dri, codings, mcus, k, at)
  {
    assert |at.preds| == 3;
    hide *;
    McuReached(input, dri, codings, mcus, k, at);
    var at' := AtMcu(input, dri, k, at).value;
    NextStands(input, dri, codings, mcus, k, at');
    next := AfterMcu(codings, mcus[k], at');
    if Faultless(input, dri, codings, mcus, k + 1, next) { FaultlessNext(input, dri, codings, mcus, k, at); }
  }

  /** What the encoder writes is what the decoder needs, and has no wrong marker. */
  lemma {:induction false} EncodedHolds(input: seq<byte>, dri: nat, codings: seq<Coding>, mcus: seq<Mcu>, k: nat,
                                        at: Position)
    requires |codings| == 3 && k <= |mcus| && Stands(input, dri, codings, mcus, k, at)
    ensures Faultless(input, dri, codings, mcus, k, at)
    decreases |mcus| - k
  {
    hide *;
    if k == |mcus| {
      EndReached(input, dri, codings, mcus, k, at);
    } else {
      var next := EncodedMcu(input, dri, codings, mcus, k, at);
      EncodedHolds(input, dri, codings, mcus, k + 1, next);
    }
  }

  /** Where the scan begins. */
  lemma ScanStands(input: seq<byte>, start: nat, dri: nat, codings: seq<Coding>, mcus: seq<Mcu>)
    requires |codings| == 3 && Has(input, start, EncodeScan(dri, codings, mcus, 0))
    requires CodableFrom(dri, codings, [0, 0, 0], mcus, 0)
    ensures Terminated(input, start)
    ensures Stands(input, dri, codings, mcus, 0, Position(SegmentAt(input, start), 0, [0, 0, 0]))
  {
    SegmentFound(input, start, dri, codings, mcus, 0);
    if mcus == [] { RemainingNone(SegmentAt(input, start).data, 0); }
    hide Has, EncodeScan, Terminated, SegmentAt, CodableFrom, Remaining, BitsOf;
  }

  /** setinput, dec_initscans, and the records of the three components. */
  method Begin(input: seq<byte>, start: nat, dri: nat, hudc: seq<DecTables>, huac: seq<DecTables>,
               ghost codings: seq<Coding>)
    returns (reader: BitReader, info: Info, sc: seq<Scan>)
    requires Terminated(input, start) && Tables(hudc, huac, codings)
    ensures fresh(reader) && fresh(info) && |sc| == 3 && fresh(sc[0]) && fresh(sc[1]) && fresh(sc[2])
    ensures reader.input == input && info.dri == dri && Scans(sc, codings, 6)
    ensures StandsAt(reader, info, sc, 0, Position(SegmentAt(input, start), 0, [0, 0, 0]))
  {
    hide BitReader.Valid, Terminated, SegmentAt, Decodes;
    reader := new BitReader(input, start);
    info := new Info(dri);
    var sc0 := new Scan(hudc[0], huac[0], 2);
    var sc1 := new Scan(hudc[1], huac[1], 1);
    var sc2 := new Scan(hudc[2], huac[2], 0);
    sc := [sc0, sc1, sc2];
  }

  /** The decoding tables of the three components. */
  ghost predicate Tables(hudc: seq<DecTables>, huac: seq<DecTables>, codings: seq<Coding>) {
    && |hudc| == |huac| == |codings| == 3
    && forall c :: 0 <= c < 3 ==> Decodes(hudc[c], codings[c].dc) && Decodes(huac[c], codings[c].ac)
  }

  /** The input holds, from start on, the encoded scan of an image. */
  ghost predicate Encoded(input: seq<byte>, start: nat, dri: nat, codings: seq<Coding>, mcus: seq<Mcu>) {
    && |codings| == 3 && CodableFrom(dri, codings, [0, 0, 0], mcus, 0)
    && Has(input, start, EncodeScan(dri, codings, mcus, 0))
  }

  lemma EncodedFaultless(input: seq<byte>, start: nat, dri: nat, codings: seq<Coding>, mcus: seq<Mcu>)
    requires Encoded(input, start, dri, codings, mcus)
    ensures |codings| == 3 && Terminated(input, start)
    ensures var at := Position(SegmentAt(input, start), 0, [0, 0, 0]);
            Holds(input, dri, codings, mcus, 0, at) && Verdict(input, dri, codings, mcus, 0, at) == 0
    ensures 0 != ERR_WRONG_MARKER
  {
    assert |codings| == 3 && CodableFrom(dri, codings, [0, 0, 0], mcus, 0);
    assert Has(input, start, EncodeScan(dri, codings, mcus, 0)) && 0 != ERR_WRONG_MARKER;
    hide *;
    ScanStands(input, start, dri, codings, mcus);
    var at := Position(SegmentAt(input, start), 0, [0, 0, 0]);
    EncodedHolds(input, dri, codings, mcus, 0, at);
    FaultlessIs(input, dri, codings, mcus, 0, at);
  }

  /** All that jpeg_decode sets up before its loop. */
  method SetUp(input: seq<byte>, start: nat, dri: nat, hudc: seq<DecTables>, huac: seq<DecTables>,
               dquant0: array<int>, dquant1: array<int>, dquant2: array<int>,
               ghost pic: array<byte>, ghost codings: seq<Coding>, ghost q: Quants)
    returns (d: Decoder)
    requires Terminated(input, start) && Tables(hudc, huac, codings)
    requires dquant0.Length == dquant1.Length == dquant2.Length == 64
    requires dquant0[..] == q.y && dquant1[..] == q.u && dquant2[..] == q.v
    requires pic as object !in {dquant0 as object, dquant1 as object, dquant2 as object}
    ensures fresh(d.input) && fresh(d.info) && fresh(d.dcts) && fresh(d.out) && fresh(d.max)
    ensures |d.sc| == 3 && fresh(d.sc[0]) && fresh(d.sc[1]) && fresh(d.sc[2])
    ensures d.Ready(codings, q, pic) && d.input.input == input && d.info.dri == dri
    ensures StandsAt(d.input, d.info, d.sc, 0, Position(SegmentAt(input, start), 0, [0, 0, 0]))
  {
    hide *;
    var reader, info, sc := Begin(input, start, dri, hudc, huac, codings);
    d := new Decoder(reader, info, sc, dquant0, dquant1, dquant2);
    Laid(d, codings, q, pic);
  }

  /** The rest of jpeg_decode, of what the encoder has written: there is no error, and the
      picture shows the samples of every MCU, each of its bytes written once. */
  method DecodeImage(input: seq<byte>, start: nat, dri: nat, hudc: seq<DecTables>, huac: seq<DecTables>,
                     dquant0: array<int>, dquant1: array<int>, dquant2: array<int>,
                     pic: array<byte>, width: nat, height: nat,
                     ghost codings: seq<Coding>, ghost q: Quants, ghost mcus: seq<Mcu>)
    returns (err: int, ghost writes: seq<nat>)
    requires Tables(hudc, huac, codings)
    requires dquant0.Length == dquant1.Length == dquant2.Length == 64
    requires dquant0[..] == q.y && dquant1[..] == q.u && dquant2[..] == q.v
    requires pic as object !in {dquant0 as object, dquant1 as object, dquant2 as object}
    requires |mcus| == McuNumber(width / 16, height / 16, 0) && Start(0, 2 * width, height) <= pic.Length
    requires Encoded(input, start, dri, codings, mcus)
    modifies pic
    ensures err == 0
    ensures ShownUpTo(pic, 2 * width, width / 16, mcus, q, height / 16, 0)
    ensures TouchedOnce(writes, 2 * width, width / 16, height / 16, 0)
  {
    hide *;
    EncodedFaultless(input, start, dri, codings, mcus);
    ghost var at := Position(SegmentAt(input, start), 0, [0, 0, 0]);
    var d := SetUp(input, start, dri, hudc, huac, dquant0, dquant1, dquant2, pic, codings, q);
    err, writes := DecodeScan(d, pic, width, height, codings, q, mcus, at);
  }

  lemma FaultlessIs(input: seq<byte>, dri: nat, codings: seq<Coding>, mcus: seq<Mcu>, k: nat, at: Position)
    requires |codings| == 3 && k <= |mcus| && Faultless(input, dri, codings, mcus, k, at)
    ensures |at.preds| == 3
    ensures Holds(input, dri, codings, mcus, k, at) && Verdict(input, dri, codings, mcus, k, at) == 0
  {
  }

  lemma Laid(d: Decoder, codings: seq<Coding>, q: Quants, pic: array<byte>)
    requires Scans(d.sc, codings, 6) && d.dcts.Length == 400 && d.out.Length == 384 && d.max.Length == 6
    requires d.dquant0.Length == d.dquant1.Length == d.dquant2.Length == 64
    requires d.dquant0[..] == q.y && d.dquant1[..] == q.u && d.dquant2[..] == q.v
    requires d.dcts != d.out && d.max as object != d.out && d.max as object != d.dcts
    requires {d.dcts as object, d.out as object, d.max as object, pic as object}
             !! {d.dquant0 as object, d.dquant1 as object, d.dquant2 as object}
    requires pic as object !in {d.dcts as object, d.out as object, d.max as object}
    ensures d.Ready(codings, q, pic)
  {
    hide Scans;
  }
}
