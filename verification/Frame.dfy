/** The MCU loop of jpeg_decode for 4:2:0 images: entropy-coded segments in, a
    YUYV picture out. */
module Frames {
  import opened Blocks
  import opened Bits
  import opened Machine
  import opened BitReaders
  import opened Mcus
  import opened Yuv
  import Idct

  /** The quantisation tables of the three components. */
  datatype Quants = Quants(y: Block, u: Block, v: Block)

  /** The six blocks of a 4:2:0 MCU. */
  type Mcu = m: seq<Block> | |m| == 6 witness seq(6, _ => ZERO)

  /** What block b of an MCU is dequantised by, and offset by: IFIX(128.5) for
      luma, IFIX(0.5) for chroma. */
  function QuantOf(q: Quants, b: nat): Block {
    if b < 4 then q.y else if b == 4 then q.u else q.v
  }

  function OffsetOf(b: nat): int {
    if b < 4 then 263168 else 1024
  }

  lemma Offsets()
    ensures OffsetOf(0) == Idct.IFix(128.5) && OffsetOf(4) == Idct.IFix(0.5)
  {
  }

  /** Sample i of an MCU: block i / 64, row and column of i % 64. */
  function McuSample(m: Mcu, q: Quants, i: nat): int
    requires i < 384
  {
    Idct.Sample(Idct.Dequantised(m[i / 64], QuantOf(q, i / 64)), OffsetOf(i / 64), i % 64 / 8, i % 8)
  }

  function McuSamples(m: Mcu, q: Quants): Samples {
    seq(384, i requires 0 <= i < 384 => McuSample(m, q, i))
  }

  /** The samples of the first n blocks are in place. */
  ghost predicate Transformed(out: array<int>, m: Mcu, q: Quants, n: nat)
    reads out
  {
    out.Length >= 384 && n <= 6 && forall i :: 0 <= i < 64 * n ==> out[i] == McuSample(m, q, i)
  }

  /** One call of idct in the MCU loop. */
  method TransformBlock(dct: array<int>, out: array<int>, quant: array<int>, off: int, max: nat, b: nat,
                        ghost m: Mcu, ghost q: Quants)
    requires dct != out && quant != out && quant.Length == 64 && b < 6
    requires Placed(dct, m, 6) && quant[..] == QuantOf(q, b) && off == OffsetOf(b) && IsMax(m[b], max)
    requires Transformed(out, m, q, b)
    modifies out
    ensures Transformed(out, m, q, b + 1)
  {
    hide Idct.Sample, Idct.Dequantised, McuSample, Placed, QuantOf, OffsetOf;
    BlockOf(dct, m, b);
    Idct.Idct(dct, 64 * b, out, 64 * b, quant, off, max);
    forall i | 64 * b <= i < 64 * b + 64
      ensures out[i] == McuSample(m, q, i)
    {
      SampleOfBlock(m, q, b, i);
    }
  }

  lemma SampleOfBlock(m: Mcu, q: Quants, b: nat, i: nat)
    requires b < 6 && 64 * b <= i < 64 * b + 64
    ensures McuSample(m, q, i)
         == Idct.Sample(Idct.Dequantised(m[b], QuantOf(q, b)), OffsetOf(b), (i - 64 * b) / 8, (i - 64 * b) % 8)
  {
    hide Idct.Sample, Idct.Dequantised, QuantOf, OffsetOf;
  }

  /** By block and place in it: the four of luma with the table and the offset of luma,
      those of U and V with theirs. */
  lemma SampleAt(m: Mcu, q: Quants, b: nat, i: nat)
    requires b < 6 && i < 64
    ensures McuSamples(m, q)[64 * b + i] ==
            Idct.Sample(Idct.Dequantised(m[b], if b < 4 then q.y else if b == 4 then q.u else q.v),
                        if b < 4 then Idct.IFix(128.5) else Idct.IFix(0.5), i / 8, i % 8)
  {
    Offsets();
    hide Idct.Sample, Idct.Dequantised, Idct.IFix, McuSample;
    SampleOfBlock(m, q, b, 64 * b + i);
  }

  lemma BlockOf(dct: array<int>, m: Mcu, b: nat)
    requires Placed(dct, m, 6) && b < 6
    ensures 64 * b + 64 <= dct.Length && dct[64 * b..64 * b + 64] == m[b]
  {
  }

  /** The six calls of idct. */
  method TransformMcu(dct: array<int>, out: array<int>, q0: array<int>, q1: array<int>, q2: array<int>,
                      maxp: array<nat>, ghost m: Mcu, ghost q: Quants)
    requires dct != out && q0 != out && q1 != out && q2 != out && maxp as object != out as object
    requires out.Length >= 384 && maxp.Length == 6 && Placed(dct, m, 6) && MaxUpTo(maxp, m, 6)
    requires q0.Length == q1.Length == q2.Length == 64
    requires q0[..] == q.y && q1[..] == q.u && q2[..] == q.v
    modifies out
    ensures Transformed(out, m, q, 6)
  {
    hide McuSample, IsMax, Placed;
    TransformBlock(dct, out, q0, 263168, maxp[0], 0, m, q);
    TransformBlock(dct, out, q0, 263168, maxp[1], 1, m, q);
    TransformBlock(dct, out, q0, 263168, maxp[2], 2, m, q);
    TransformBlock(dct, out, q0, 263168, maxp[3], 3, m, q);
    TransformBlock(dct, out, q1, 1024, maxp[4], 4, m, q);
    TransformBlock(dct, out, q2, 1024, maxp[5], 5, m, q);
  }

  const M_RST0 := 0xd0
  const M_EOI := 0xd9
  const ERR_WRONG_MARKER := 12
  const ERR_NO_EOI := 13

  /** Where the decoder stands between two MCUs: in a segment, pos bits into it, and with
      DC predictions. */
  datatype Position = Position(segment: Segment, pos: nat, preds: seq<int>)

  /** A restart marker is due before every MCU whose number is a multiple of the restart
      interval, but for the first. */
  predicate Due(dri: nat, k: nat) {
    dri > 0 && k > 0 && k % dri == 0
  }

  /** The one before MCU k: they follow one another from RST0 to RST7, and over again. */
  function RstMarker(dri: nat, k: nat): int
    requires Due(dri, k)
  {
    M_RST0 + (k / dri - 1) % 8
  }

  /** The current segment has been used up, but for the padding of its last byte. */
  predicate UsedUp(at: Position) {
    |BitsOf(at.segment.data)| < at.pos + 8
  }

  /** The position at which MCU k begins; none if the wrong marker is there. */
  ghost function AtMcu(input: seq<byte>, dri: nat, k: nat, at: Position): Huffman.Option<Position> {
    if !Due(dri, k) then Huffman.Some(at)
    else if at.segment.marker != RstMarker(dri, k) || !Terminated(input, at.segment.next) then Huffman.None
    else Huffman.Some(Position(SegmentAt(input, at.segment.next), 0, [0, 0, 0]))
  }

  ghost function AfterMcu(codings: seq<Coding>, m: Mcu, at: Position): Position
    requires |codings| == |at.preds| == 3
  {
    at.(pos := at.pos + |EncodeMcu(codings, at.preds, m, 0)|, preds := PredsAfter(at.preds, m, 0))
  }

  /** If a restart marker is due before MCU k, the segment is used up; and if it is the
      right one, another segment follows. */
  ghost predicate RestartReady(input: seq<byte>, dri: nat, k: nat, at: Position) {
    Due(dri, k) ==> UsedUp(at) && (at.segment.marker == RstMarker(dri, k) ==> Terminated(input, at.segment.next))
  }

  /** The input holds the encoded MCUs from k on, up to the first wrong marker. */
  ghost predicate Holds(input: seq<byte>, dri: nat, codings: seq<Coding>, mcus: seq<Mcu>, k: nat, at: Position)
    requires |codings| == 3 && k <= |mcus|
    decreases |mcus| - k
  {
    |at.preds| == 3 &&
    if k == |mcus| then UsedUp(at)
    else
      && RestartReady(input, dri, k, at)
      && match AtMcu(input, dri, k, at)
         case None => true
         case Some(at') =>
           && SpelledAt(codings, mcus[k], at')
           && Holds(input, dri, codings, mcus, k + 1, AfterMcu(codings, mcus[k], at'))
  }

  /** What jpeg_decode returns. */
  ghost function Verdict(input: seq<byte>, dri: nat, codings: seq<Coding>, mcus: seq<Mcu>, k: nat, at: Position): int
    requires |codings| == |at.preds| == 3 && k <= |mcus|
    decreases |mcus| - k
  {
    if k == |mcus| then (if at.segment.marker == M_EOI then 0 else ERR_NO_EOI)
    else
      match AtMcu(input, dri, k, at)
      case None => ERR_WRONG_MARKER
      case Some(at') => Verdict(input, dri, codings, mcus, k + 1, AfterMcu(codings, mcus[k], at'))
  }

  /** ERR_WRONG_MARKER, ERR_NO_EOI, or no error. */
  lemma {:induction false} VerdictCodes(input: seq<byte>, dri: nat, codings: seq<Coding>, mcus: seq<Mcu>, k: nat,
                                        at: Position)
    requires |codings| == |at.preds| == 3 && k <= |mcus|
    ensures Verdict(input, dri, codings, mcus, k, at) in {0, 12, 13}
    ensures k == |mcus| ==> Verdict(input, dri, codings, mcus, k, at) == if at.segment.marker == 0xd9 then 0 else 13
    ensures k < |mcus| && AtMcu(input, dri, k, at).None? ==> Verdict(input, dri, codings, mcus, k, at) == 12
    decreases |mcus| - k
  {
    hide AtMcu, AfterMcu;
    if k == |mcus| || AtMcu(input, dri, k, at).None? {
    } else {
      var at' := AtMcu(input, dri, k, at).value;
      PositionNext(input, dri, codings, mcus, k, at);
      VerdictCodes(input, dri, codings, mcus, k + 1, AfterMcu(codings, mcus[k], at'));
    }
  }

  lemma PositionNext(input: seq<byte>, dri: nat, codings: seq<Coding>, mcus: seq<Mcu>, k: nat, at: Position)
    requires |codings| == |at.preds| == 3 && k < |mcus| && AtMcu(input, dri, k, at).Some?
    ensures var at' := AtMcu(input, dri, k, at).value;
            |at'.preds| == 3 && |AfterMcu(codings, mcus[k], at').preds| == 3
  {
  }

  /** The restart state of struct jpginfo. */
  class Info {
    const dri: nat
    var nm: int
    var rm: int

    constructor (dri: nat)
      ensures this.dri == dri && nm == dri + 1 && rm == M_RST0
    {
      this.dri, nm, rm := dri, dri + 1, M_RST0;
    }
  }

  /** The countdown before MCU k, and the restart marker that is next. */
  function CountdownAt(dri: nat, k: nat): int {
    if dri == 0 || k == 0 then dri + 1 else dri - (k - 1) % dri
  }

  function NextMarkerAt(dri: nat, k: nat): int {
    if dri == 0 || k == 0 then M_RST0 else M_RST0 + (k - 1) / dri % 8
  }

  /** info->rm = (info->rm + 1) & ~0x08, as the source computes it */
  function NextRst(rm: int): int {
    if (rm + 1) / 8 % 2 == 1 then rm + 1 - 8 else rm + 1
  }

  /** Counting down finds the MCUs before which a marker is due, and which one it is. */
  lemma CountdownRight(dri: nat, k: nat)
    requires dri > 0
    ensures CountdownAt(dri, k) - 1 == 0 <==> Due(dri, k)
    ensures Due(dri, k) ==>
              && NextMarkerAt(dri, k) == RstMarker(dri, k)
              && CountdownAt(dri, k + 1) == dri && NextMarkerAt(dri, k + 1) == NextRst(NextMarkerAt(dri, k))
    ensures !Due(dri, k) ==>
              && CountdownAt(dri, k + 1) == CountdownAt(dri, k) - 1
              && NextMarkerAt(dri, k + 1) == NextMarkerAt(dri, k)
  {
    if k == 0 {
      DivModUnique(0, dri, 0, 0);
    } else {
      var q, r := (k - 1) / dri, (k - 1) % dri;
      assert k - 1 == q * dri + r;
      if r + 1 < dri {
        DivModUnique(k, dri, q, r + 1);
        BetweenMarkers(dri, k, q, r);
      } else {
        assert (q + 1) * dri == q * dri + dri;
        DivModUnique(k, dri, q + 1, 0);
        AtMarker(dri, k, q);
      }
      hide CountdownAt, NextMarkerAt, NextRst, RstMarker, Due;
    }
  }

  lemma BetweenMarkers(dri: nat, k: nat, q: nat, r: nat)
    requires k > 0 && r + 1 < dri && (k - 1) / dri == q == k / dri && (k - 1) % dri == r && k % dri == r + 1
    ensures CountdownAt(dri, k) - 1 != 0 && !Due(dri, k)
    ensures CountdownAt(dri, k + 1) == CountdownAt(dri, k) - 1 && NextMarkerAt(dri, k + 1) == NextMarkerAt(dri, k)
  {
  }

  lemma AtMarker(dri: nat, k: nat, q: nat)
    requires k > 0 && dri > 0 && (k - 1) / dri == q && k / dri == q + 1 && (k - 1) % dri == dri - 1 && k % dri == 0
    ensures CountdownAt(dri, k) - 1 == 0 && Due(dri, k) && NextMarkerAt(dri, k) == RstMarker(dri, k)
    ensures CountdownAt(dri, k + 1) == dri && NextMarkerAt(dri, k + 1) == NextRst(NextMarkerAt(dri, k))
  {
    Cycle(q);
    hide NextRst;
  }

  lemma Cycle(q: nat)
    ensures M_RST0 + (q + 1) % 8 == NextRst(M_RST0 + q % 8)
  {
    var j := q % 8;
    assert (q + 1) % 8 == if j == 7 then 0 else j + 1;
  }

  /** The reader and the records stand at a position, and the countdown where it is
      before MCU k. */
  ghost predicate StandsAt(input: BitReader, info: Info, sc: seq<Scan>, k: nat, at: Position)
    reads input, info, sc
  {
    && input.Valid() && input.segment == at.segment && input.pos == at.pos && Predicts(sc, at.preds)
    && info.nm == CountdownAt(info.dri, k) && info.rm == NextMarkerAt(info.dri, k)
  }

  /** dec_checkmarker, and the test before it in the MCU loop. */
  method CheckRestart(input: BitReader, info: Info, sc: seq<Scan>, ghost k: nat, ghost at: Position) returns (ok: bool)
    requires StandsAt(input, info, sc, k, at) && |sc| == 3 && sc[0] != sc[1] && sc[1] != sc[2] && sc[2] != sc[0]
    requires RestartReady(input.input, info.dri, k, at)
    modifies input, info, sc
    ensures ok <==> AtMcu(input.input, info.dri, k, at).Some?
    ensures ok ==> StandsAt(input, info, sc, k + 1, AtMcu(input.input, info.dri, k, at).value)
  {
    hide BitReader.Valid, SegmentAt, Terminated, Due, RstMarker, CountdownAt, NextMarkerAt, NextRst;
    NoRestarts(k);
    ok := true;
    if info.dri != 0 {
      CountdownRight(info.dri, k);
      info.nm := info.nm - 1;
      if info.nm == 0 {
        var m := input.ReadMarker();
        if m != info.rm {
          return false;
        }
        info.nm := info.dri;
        info.rm := NextRst(info.rm);
        sc[0].dc := 0;
        sc[1].dc := 0;
        sc[2].dc := 0;
      }
    }
  }

  lemma NoRestarts(k: nat)
    ensures !Due(0, k) && CountdownAt(0, k + 1) == CountdownAt(0, k) && NextMarkerAt(0, k + 1) == NextMarkerAt(0, k)
  {
  }

  /** The number, in raster order, of the MCU in row my and column c of MCUs. */
  function McuNumber(mcusx: nat, my: nat, c: nat): nat {
    Start(c, mcusx, my)
  }

  /** The picture shows, in pixel row `row`, its MCU number c from the left. */
  ghost predicate ShownAt(pic: array<byte>, pitch: nat, mcusx: nat, mcus: seq<Mcu>, q: Quants, row: nat, c: nat)
    reads pic
  {
    var k := McuNumber(mcusx, row / 16, c);
    k < |mcus| && RowAt(pic, Start(32 * c, pitch, row), McuSamples(mcus[k], q), row % 16, 32)
  }

  predicate Before(mcusx: nat, row: nat, c: nat, my: nat, mx: nat) {
    c < mcusx && (row / 16 < my || (row / 16 == my && c < mx))
  }

  ghost predicate ShownUpTo(pic: array<byte>, pitch: nat, mcusx: nat, mcus: seq<Mcu>, q: Quants, my: nat, mx: nat)
    reads pic
  {
    forall row: nat, c: nat :: Before(mcusx, row, c, my, mx) ==> ShownAt(pic, pitch, mcusx, mcus, q, row, c)
  }

  /** A row of one MCU lies outside all the rows of another. */
  lemma Apart(pitch: nat, mcusx: nat, row: nat, c: nat, my: nat, mx: nat, m: nat)
    requires 32 * mcusx <= pitch && c < mcusx && mx < mcusx && !(row / 16 == my && c == mx)
    requires Start(32 * c, pitch, row) <= m < Start(32 * c, pitch, row) + 32
    ensures Outside(Start(32 * mx, pitch, 16 * my), pitch, 16, m)
  {
    hide Start;
    StartShift(32 * c, pitch, row);
    forall r | 0 <= r < 16
      ensures var at := Start(Start(32 * mx, pitch, 16 * my), pitch, r); !(at <= m < at + 32)
    {
      var row' := 16 * my + r;
      StartAdd(32 * mx, 0, pitch, 16 * my, r);
      StartShift(32 * mx, pitch, row');
      if row < row' { StartMono(0, pitch, row, row'); }
      if row' < row { StartMono(0, pitch, row', row); }
    }
  }

  /** The bytes of the MCUs before column mx of row my. */
  ghost predicate Touched(pitch: nat, mcusx: nat, my: nat, mx: nat, x: nat) {
    exists row: nat, c: nat :: Before(mcusx, row, c, my, mx) && InRow(pitch, row, c, x)
  }

  predicate InRow(pitch: nat, row: nat, c: nat, x: nat) {
    Start(32 * c, pitch, row) <= x < Start(32 * c, pitch, row) + 32
  }

  /** w are the places of these bytes, each once. */
  ghost predicate TouchedOnce(w: seq<nat>, pitch: nat, mcusx: nat, my: nat, mx: nat) {
    NoRepeats(w) && forall x: nat :: x in w <==> Touched(pitch, mcusx, my, mx, x)
  }

  /** One MCU more touches its own bytes, and no others. */
  lemma TouchedNext(pitch: nat, mcusx: nat, my: nat, mx: nat, x: nat)
    requires 32 * mcusx <= pitch && mx < mcusx
    ensures Touched(pitch, mcusx, my, mx + 1, x) <==>
              Touched(pitch, mcusx, my, mx, x) || !Outside(Start(32 * mx, pitch, 16 * my), pitch, 16, x)
    ensures Touched(pitch, mcusx, my, mx, x) ==> Outside(Start(32 * mx, pitch, 16 * my), pitch, 16, x)
  {
    hide Start;
    var base := Start(32 * mx, pitch, 16 * my);
    if Touched(pitch, mcusx, my, mx, x) {
      var row: nat, c: nat :| Before(mcusx, row, c, my, mx) && InRow(pitch, row, c, x);
      Apart(pitch, mcusx, row, c, my, mx, x);
      assert Before(mcusx, row, c, my, mx + 1);
    }
    if !Outside(base, pitch, 16, x) {
      var r :| 0 <= r < 16 && Start(base, pitch, r) <= x < Start(base, pitch, r) + 32;
      RowPlace(pitch, 16 * my + r, my, mx);
      assert (16 * my + r) % 16 == r;
      assert Before(mcusx, 16 * my + r, mx, my, mx + 1) && InRow(pitch, 16 * my + r, mx, x);
    }
    if Touched(pitch, mcusx, my, mx + 1, x) && !Touched(pitch, mcusx, my, mx, x) {
      var row: nat, c: nat :| Before(mcusx, row, c, my, mx + 1) && InRow(pitch, row, c, x);
      assert row / 16 == my && c == mx;
      RowPlace(pitch, row, my, mx);
      assert Start(base, pitch, row % 16) <= x < Start(base, pitch, row % 16) + 32;
    }
  }

  lemma TouchedOnceNext(v: seq<nat>, w: seq<nat>, pitch: nat, mcusx: nat, my: nat, mx: nat)
    requires 32 * mcusx <= pitch && mx < mcusx && TouchedOnce(v, pitch, mcusx, my, mx)
    requires Places(w, Start(32 * mx, pitch, 16 * my), pitch, 16)
    ensures TouchedOnce(v + w, pitch, mcusx, my, mx + 1)
  {
    hide NoRepeats, Touched, Outside, Start;
    forall x: nat
      ensures Touched(pitch, mcusx, my, mx + 1, x) <==>
                Touched(pitch, mcusx, my, mx, x) || !Outside(Start(32 * mx, pitch, 16 * my), pitch, 16, x)
      ensures Touched(pitch, mcusx, my, mx, x) ==> Outside(Start(32 * mx, pitch, 16 * my), pitch, 16, x)
    {
      TouchedNext(pitch, mcusx, my, mx, x);
    }
    NoRepeatsConcat(v, w);
  }

  /** The place of row `row` of the MCU in row my and column mx of MCUs. */
  lemma RowPlace(pitch: nat, row: nat, my: nat, mx: nat)
    requires row / 16 == my
    ensures Start(Start(32 * mx, pitch, 16 * my), pitch, row % 16) == Start(32 * mx, pitch, row)
  {
    StartAdd(32 * mx, 0, pitch, 16 * my, row % 16);
  }

  /** Placing one MCU keeps those before it and shows it as well. */
  method PlaceMcu(out: array<int>, pic: array<byte>, pitch: nat, ghost mcusx: nat, ghost my: nat, ghost mx: nat,
                  base: nat, ghost mcus: seq<Mcu>, ghost q: Quants)
    returns (ghost writes: seq<nat>)
    requires 32 <= 32 * mcusx <= pitch && mx < mcusx && Start(0, pitch, 16 * my + 16) <= pic.Length
    requires base == Start(32 * mx, pitch, 16 * my)
    requires McuNumber(mcusx, my, mx) < |mcus| && Transformed(out, mcus[McuNumber(mcusx, my, mx)], q, 6)
    requires ShownUpTo(pic, pitch, mcusx, mcus, q, my, mx)
    modifies pic
    ensures ShownUpTo(pic, pitch, mcusx, mcus, q, my, mx + 1) && Places(writes, base, pitch, 16)
  {
    hide Start, McuSample, Places;
    ghost var m := mcus[McuNumber(mcusx, my, mx)];
    assert out[..384] == McuSamples(m, q);
    LastRow(pitch, mcusx, my, mx, base);
    label before:
    writes := Convert420(out, pic, base, pitch);
    forall row: nat, c: nat | Before(mcusx, row, c, my, mx + 1)
      ensures ShownAt(pic, pitch, mcusx, mcus, q, row, c)
    {
      if row / 16 == my && c == mx {
        RowPlace(pitch, row, my, mx);
      } else {
        assert old@before(ShownAt(pic, pitch, mcusx, mcus, q, row, c));
        forall m | Start(32 * c, pitch, row) <= m < Start(32 * c, pitch, row) + 32
          ensures pic[m] == old@before(pic[m])
        {
          Apart(pitch, mcusx, row, c, my, mx, m);
        }
      }
    }
  }

  lemma LastRow(pitch: nat, mcusx: nat, my: nat, mx: nat, base: nat)
    requires 32 * mcusx <= pitch && mx < mcusx && base == Start(32 * mx, pitch, 16 * my)
    ensures Start(base, pitch, 15) + 32 <= Start(0, pitch, 16 * my + 16)
  {
    StartAdd(32 * mx, 0, pitch, 16 * my, 15);
    StartShift(32 * mx, pitch, 16 * my + 15);
    assert Start(0, pitch, 16 * my + 16) == Start(0, pitch, 16 * my + 15) + pitch;
  }

  /** The working storage of jpeg_decode. */
  class Decoder {
    const input: BitReader
    const info: Info
    const sc: seq<Scan>
    const dcts: array<int>
    const out: array<int>
    const max: array<nat>
    const dquant0: array<int>
    const dquant1: array<int>
    const dquant2: array<int>

    constructor (input: BitReader, info: Info, sc: seq<Scan>,
                 dquant0: array<int>, dquant1: array<int>, dquant2: array<int>)
      ensures this.input == input && this.info == info && this.sc == sc
      ensures this.dquant0 == dquant0 && this.dquant1 == dquant1 && this.dquant2 == dquant2
      ensures fresh(dcts) && fresh(out) && fresh(max)
      ensures dcts.Length == 400 && out.Length == 384 && max.Length == 6
      ensures dcts != out && max as object != out && max as object != dcts
    {
      this.input, this.info, this.sc := input, info, sc;
      this.dquant0, this.dquant1, this.dquant2 := dquant0, dquant1, dquant2;
      dcts := new int[400];
      out := new int[384];
      max := new nat[6];
    }

    /** The storage is laid out as jpeg_decode sets it up; the picture is none of it. */
    ghost predicate Ready(codings: seq<Coding>, q: Quants, pic: array<byte>)
      reads dquant0, dquant1, dquant2
    {
      && Scans(sc, codings, 6)
      && dcts.Length == 400 && out.Length == 384 && max.Length == 6
      && dquant0.Length == dquant1.Length == dquant2.Length == 64
      && dquant0[..] == q.y && dquant1[..] == q.u && dquant2[..] == q.v
      && {dcts as object, out as object, max as object, pic as object}
         !! {dquant0 as object, dquant1 as object, dquant2 as object}
      && dcts != out && max as object != out && max as object != dcts
      && pic as object != dcts && pic as object != out && pic as object != max
    }

    /** The call of decode_mcus. */
    method DecodeCoefficients(ghost codings: seq<Coding>, ghost m: Mcu, ghost k: nat, ghost now: Position)
      requires Scans(sc, codings, 6) && dcts.Length == 400 && max.Length == 6 && max as object != dcts
      requires StandsAt(input, info, sc, k, now) && SpelledAt(codings, m, now)
      modifies input, sc, dcts, max
      ensures StandsAt(input, info, sc, k, AfterMcu(codings, m, now))
      ensures Placed(dcts, m, 6) && MaxUpTo(max, m, 6)
    {
      hide BitReader.Valid, Scan.Holds, Placed, MaxUpTo, CodableMcu, EncodeMcu, Spells, Predicts, PredsAfter;
      ghost var end := now.pos + |EncodeMcu(codings, now.preds, m, 0)|;
      DecodeMcus(input, dcts, 6, sc, max, codings, now.preds, m, end);
    }

    /** One turn of the MCU loop, up to the placing. */
    method DecodeMcu(ghost codings: seq<Coding>, ghost q: Quants, ghost pic: array<byte>,
                     ghost m: Mcu, ghost k: nat, ghost at: Position)
      returns (ok: bool)
      requires Ready(codings, q, pic) && StandsAt(input, info, sc, k, at)
      requires RestartReady(input.input, info.dri, k, at)
      requires AtMcu(input.input, info.dri, k, at).Some? ==>
                 SpelledAt(codings, m, AtMcu(input.input, info.dri, k, at).value)
      modifies input, info, sc, dcts, out, max
      ensures ok <==> AtMcu(input.input, info.dri, k, at).Some?
      ensures ok ==> StandsAt(input, info, sc, k + 1, AfterMcu(codings, m, AtMcu(input.input, info.dri, k, at).value))
      ensures ok ==> Transformed(out, m, q, 6)
    {
      hide RestartReady, AtMcu, Terminated, Transformed, Scan.Holds, StandsAt, SpelledAt;
      hide Placed, MaxUpTo, AfterMcu;
      ok := CheckRestart(input, info, sc, k, at);
      if ok {
        ghost var now := AtMcu(input.input, info.dri, k, at).value;
        DecodeCoefficients(codings, m, k + 1, now);
        TransformMcu(dcts, out, dquant0, dquant1, dquant2, max, m, q);
      }
    }
  }

  /** The part of the state that the MCU loop carries from turn to turn: k MCUs are
      decoded and shown, the others are still in the input, and the verdict on the
      whole is the verdict on these. */
  ghost predicate LoopAt(d: Decoder, codings: seq<Coding>, q: Quants, mcus: seq<Mcu>, pic: array<byte>, pitch: nat,
                         mcusx: nat, my: nat, mx: nat, k: nat, at: Position, verdict: int)
    reads d, d.input, d.info, d.sc, d.dquant0, d.dquant1, d.dquant2, pic
  {
    && d.Ready(codings, q, pic) && StandsAt(d.input, d.info, d.sc, k, at)
    && k <= |mcus| && k == McuNumber(mcusx, my, mx)
    && Holds(d.input.input, d.info.dri, codings, mcus, k, at)
    && Verdict(d.input.input, d.info.dri, codings, mcus, k, at) == verdict
    && ShownUpTo(pic, pitch, mcusx, mcus, q, my, mx)
  }

  /** The body of the MCU loop. */
  method NextMcu(d: Decoder, pic: array<byte>, pitch: nat, mcusx: nat, y: nat, x: nat,
                 ghost codings: seq<Coding>, ghost q: Quants, ghost mcus: seq<Mcu>,
                 ghost my: nat, ghost mx: nat, ghost k: nat, ghost at: Position, ghost verdict: int)
    returns (ok: bool, ghost at': Position, ghost writes: seq<nat>)
    requires LoopAt(d, codings, q, mcus, pic, pitch, mcusx, my, mx, k, at, verdict) && k < |mcus|
    requires 32 <= 32 * mcusx <= pitch && mx < mcusx && Start(0, pitch, 16 * my + 16) <= pic.Length
    requires y + x == Start(32 * mx, pitch, 16 * my)
    modifies d.input, d.info, d.sc, d.dcts, d.out, d.max, pic
    ensures !ok ==> verdict == ERR_WRONG_MARKER
    ensures ok ==> LoopAt(d, codings, q, mcus, pic, pitch, mcusx, my, mx + 1, k + 1, at', verdict)
    ensures ok ==> Places(writes, y + x, pitch, 16)
  {
    hide StandsAt, RestartReady, AtMcu, Transformed, Places, ShownUpTo, AfterMcu, Start, Scan.Holds;
    hide CodableMcu, EncodeMcu, Spells;
    at', writes := at, [];
    ok := d.DecodeMcu(codings, q, pic, mcus[k], k, at);
    if ok {
      at' := AfterMcu(codings, mcus[k], AtMcu(d.input.input, d.info.dri, k, at).value);
      writes := PlaceMcu(d.out, pic, pitch, mcusx, my, mx, y + x, mcus, q);
      NextNumber(mcusx, my, mx);
    }
  }

  lemma NextNumber(mcusx: nat, my: nat, mx: nat)
    ensures McuNumber(mcusx, my, mx + 1) == McuNumber(mcusx, my, mx) + 1
    ensures McuNumber(mcusx, my + 1, 0) == McuNumber(mcusx, my, mcusx)
  {
    StartShift(mx, mcusx, my);
    StartShift(mx + 1, mcusx, my);
    StartShift(mcusx, mcusx, my);
  }

  /** The inner MCU loop: one row of MCUs. */
  method DecodeRow(d: Decoder, pic: array<byte>, pitch: nat, mcusx: nat, y: nat,
                   ghost codings: seq<Coding>, ghost q: Quants, ghost mcus: seq<Mcu>,
                   ghost my: nat, ghost k0: nat, ghost at0: Position, ghost verdict: int, ghost writes0: seq<nat>)
    returns (ok: bool, ghost k: nat, ghost at: Position, ghost writes: seq<nat>)
    requires LoopAt(d, codings, q, mcus, pic, pitch, mcusx, my, 0, k0, at0, verdict)
    requires 32 * mcusx <= pitch && k0 + mcusx <= |mcus| && TouchedOnce(writes0, pitch, mcusx, my, 0)
    requires Start(0, pitch, 16 * my + 16) <= pic.Length && y == Start(0, pitch, 16 * my)
    modifies d.input, d.info, d.sc, d.dcts, d.out, d.max, pic
    ensures !ok ==> verdict == ERR_WRONG_MARKER
    ensures ok ==> LoopAt(d, codings, q, mcus, pic, pitch, mcusx, my + 1, 0, k, at, verdict)
    ensures ok ==> k == k0 + mcusx && TouchedOnce(writes, pitch, mcusx, my + 1, 0)
  {
    hide *;
    var x := 0;
    ok, k, at, writes := true, k0, at0, writes0;
    for mx := 0 to mcusx
      invariant LoopAt(d, codings, q, mcus, pic, pitch, mcusx, my, mx, k, at, verdict)
      invariant k == k0 + mx && x == 32 * mx && TouchedOnce(writes, pitch, mcusx, my, mx)
    {
      StartShift(32 * mx, pitch, 16 * my);
      ghost var n;
      ok, at, n := NextMcu(d, pic, pitch, mcusx, y, x, codings, q, mcus, my, mx, k, at, verdict);
      if !ok {
        return;
      }
      TouchedOnceNext(writes, n, pitch, mcusx, my, mx);
      k, writes, x := k + 1, writes + n, x + 32;
    }
    TouchedRow(writes, pitch, mcusx, my);
    RowDone(d, codings, q, mcus, pic, pitch, mcusx, my, k, at, verdict);
  }

  /** The MCU loop of jpeg_decode, and the marker after it: for any encoded image
      it gives the verdict on its markers, and unless a restart marker is wrong
      the picture shows the samples of every MCU, each of its bytes written once. */
  method DecodeScan(d: Decoder, pic: array<byte>, width: nat, height: nat,
                    ghost codings: seq<Coding>, ghost q: Quants, ghost mcus: seq<Mcu>, ghost at0: Position)
    returns (err: int, ghost writes: seq<nat>)
    requires d.Ready(codings, q, pic) && StandsAt(d.input, d.info, d.sc, 0, at0) && |codings| == 3
    requires |mcus| == McuNumber(width / 16, height / 16, 0)
    requires Start(0, 2 * width, height) <= pic.Length
    requires Holds(d.input.input, d.info.dri, codings, mcus, 0, at0)
    modifies d.input, d.info, d.sc, d.dcts, d.out, d.max, pic
    ensures err == Verdict(d.input.input, d.info.dri, codings, mcus, 0, at0)
    ensures err != ERR_WRONG_MARKER ==>
              && ShownUpTo(pic, 2 * width, width / 16, mcus, q, height / 16, 0)
              && TouchedOnce(writes, 2 * width, width / 16, height / 16, 0)
  {
    hide *;
    var mcusx, mcusy, pitch := width / 16, height / 16, 2 * width;
    LoopStart(d, codings, q, mcus, pic, pitch, mcusx, at0);
    ghost var verdict := Verdict(d.input.input, d.info.dri, codings, mcus, 0, at0);
    ghost var at, k := at0, 0;
    var y := 0;
    writes := [];
    TouchedNone(pitch, mcusx);
    for my := 0 to mcusy
      invariant LoopAt(d, codings, q, mcus, pic, pitch, mcusx, my, 0, k, at, verdict)
      invariant TouchedOnce(writes, pitch, mcusx, my, 0) && y == Start(0, pitch, 16 * my)
    {
      RowInside(pitch, mcusx, my, mcusy, height);
      LoopCount(d, codings, q, mcus, pic, pitch, mcusx, my, k, at, verdict);
      var ok;
      ghost var w;
      ok, k, at, w := DecodeRow(d, pic, pitch, mcusx, y, codings, q, mcus, my, k, at, verdict, writes);
      if !ok {
        return ERR_WRONG_MARKER, writes;
      }
      NextRow(pitch, my);
      y, writes := y + 16 * pitch, w;
      assert 16 * my + 16 == 16 * (my + 1);
    }
    LoopCount(d, codings, q, mcus, pic, pitch, mcusx, mcusy, k, at, verdict);
    err := Finish(d, codings, q, mcus, pic, pitch, mcusx, mcusy, at, verdict);
  }

  /** The bits at a position begin with the encoding of an MCU. */
  ghost predicate SpelledAt(codings: seq<Coding>, m: Mcu, at: Position)
    requires |codings| == 3
  {
    && |at.preds| == 3 && CodableMcu(codings, at.preds, m, 0)
    && Spells(BitsOf(at.segment.data), at.pos, EncodeMcu(codings, at.preds, m, 0))
  }

  lemma LoopStart(d: Decoder, codings: seq<Coding>, q: Quants, mcus: seq<Mcu>, pic: array<byte>, pitch: nat,
                  mcusx: nat, at: Position)
    requires d.Ready(codings, q, pic) && StandsAt(d.input, d.info, d.sc, 0, at) && |codings| == 3
    requires Holds(d.input.input, d.info.dri, codings, mcus, 0, at)
    ensures |at.preds| == 3 && Start(0, pitch, 0) == 0
    ensures LoopAt(d, codings, q, mcus, pic, pitch, mcusx, 0, 0, 0, at,
                   Verdict(d.input.input, d.info.dri, codings, mcus, 0, at))
  {
    hide StandsAt, Decoder.Ready;
  }

  /** A finished row of MCUs is where the next one begins. */
  lemma RowDone(d: Decoder, codings: seq<Coding>, q: Quants, mcus: seq<Mcu>, pic: array<byte>, pitch: nat,
                mcusx: nat, my: nat, k: nat, at: Position, verdict: int)
    requires LoopAt(d, codings, q, mcus, pic, pitch, mcusx, my, mcusx, k, at, verdict)
    ensures LoopAt(d, codings, q, mcus, pic, pitch, mcusx, my + 1, 0, k, at, verdict)
  {
    hide ShownAt, StandsAt, Decoder.Ready, Holds, Verdict, McuNumber;
    NextNumber(mcusx, my, 0);
    forall row: nat, c: nat | Before(mcusx, row, c, my + 1, 0)
      ensures ShownAt(pic, pitch, mcusx, mcus, q, row, c)
    {
      assert Before(mcusx, row, c, my, mcusx);
    }
  }

  lemma TouchedNone(pitch: nat, mcusx: nat)
    ensures TouchedOnce([], pitch, mcusx, 0, 0)
  {
  }

  lemma TouchedRow(w: seq<nat>, pitch: nat, mcusx: nat, my: nat)
    requires TouchedOnce(w, pitch, mcusx, my, mcusx)
    ensures TouchedOnce(w, pitch, mcusx, my + 1, 0)
  {
    hide NoRepeats, InRow;
    forall row: nat, c: nat ensures Before(mcusx, row, c, my, mcusx) <==> Before(mcusx, row, c, my + 1, 0) {}
    forall x: nat ensures Touched(pitch, mcusx, my, mcusx, x) <==> Touched(pitch, mcusx, my + 1, 0, x) {}
    hide Touched;
  }

  lemma NextRow(pitch: nat, my: nat)
    ensures Start(0, pitch, 16 * my + 16) == Start(0, pitch, 16 * my) + 16 * pitch
  {
    StartIs(0, pitch, 16 * my + 16);
    StartIs(0, pitch, 16 * my);
    assert (16 * my + 16) * pitch == 16 * my * pitch + 16 * pitch;
  }

  /** The MCUs of a row, and the pixel rows they cover, are inside the image. */
  lemma RowInside(pitch: nat, mcusx: nat, my: nat, mcusy: nat, height: nat)
    requires my < mcusy == height / 16
    ensures Start(0, pitch, 16 * my + 16) <= Start(0, pitch, height)
    ensures McuNumber(mcusx, my, 0) + mcusx <= McuNumber(mcusx, mcusy, 0)
  {
    if 16 * my + 16 < height { StartMono(0, pitch, 16 * my + 16, height); }
    StartMono(0, mcusx, my, mcusy);
  }

  lemma LoopCount(d: Decoder, codings: seq<Coding>, q: Quants, mcus: seq<Mcu>, pic: array<byte>, pitch: nat,
                  mcusx: nat, my: nat, k: nat, at: Position, verdict: int)
    requires LoopAt(d, codings, q, mcus, pic, pitch, mcusx, my, 0, k, at, verdict)
    ensures k == McuNumber(mcusx, my, 0)
  {
    hide StandsAt, Decoder.Ready, Holds, Verdict, ShownUpTo, McuNumber;
  }

  /** The test for EOI behind the MCU loop. */
  method Finish(d: Decoder, ghost codings: seq<Coding>, ghost q: Quants, ghost mcus: seq<Mcu>, ghost pic: array<byte>,
                ghost pitch: nat, ghost mcusx: nat, ghost my: nat, ghost at: Position, ghost verdict: int)
    returns (err: int)
    requires LoopAt(d, codings, q, mcus, pic, pitch, mcusx, my, 0, |mcus|, at, verdict)
    modifies d.input
    ensures err == verdict && ShownUpTo(pic, pitch, mcusx, mcus, q, my, 0)
  {
    hide BitReader.Valid, SegmentAt, Terminated, ShownUpTo, Decoder.Ready;
    var m := d.input.ReadMarker();
    err := if m != M_EOI then ERR_NO_EOI else 0;
  }

  /** The MCUs cover every byte of the picture if, and only if, its sides are multiples
      of 16. */
  lemma Coverage(width: nat, height: nat)
    requires width > 0 && height > 0
    ensures (forall x: nat :: x < Start(0, 2 * width, height) ==>
               Touched(2 * width, width / 16, height / 16, 0, x)) <==>
            width % 16 == 0 && height % 16 == 0
  {
    hide Touched, Start;
    if width % 16 == 0 && height % 16 == 0 {
      forall x: nat | x < Start(0, 2 * width, height) ensures Touched(2 * width, width / 16, height / 16, 0, x) {
        InsideTouched(width, height, x);
      }
    } else if width % 16 != 0 {
      LastColumn(width, height);
    } else {
      LastLine(width, height);
    }
  }

  lemma InsideTouched(width: nat, height: nat, x: nat)
    requires width > 0 && width % 16 == 0 && height % 16 == 0 && x < Start(0, 2 * width, height)
    ensures Touched(2 * width, width / 16, height / 16, 0, x)
  {
    var pitch := 2 * width;
    var row := RowOf(pitch, height, x);
    var c := (x - Start(0, pitch, row)) / 32;
    StartShift(32 * c, pitch, row);
    hide Start;
    assert c < width / 16 && row / 16 < height / 16;
    assert Before(width / 16, row, c, height / 16, 0) && InRow(pitch, row, c, x);
  }

  lemma {:induction false} RowOf(pitch: nat, height: nat, x: nat) returns (row: nat)
    requires x < Start(0, pitch, height)
    ensures row < height && Start(0, pitch, row) <= x < Start(0, pitch, row) + pitch
  {
    if x >= Start(0, pitch, height - 1) { row := height - 1; } else { row := RowOf(pitch, height - 1, x); }
  }

  /** A column too many: its byte in the first line is not touched. */
  lemma LastColumn(width: nat, height: nat)
    requires width > 0 && height > 0 && width % 16 != 0
    ensures var x := 2 * width - 1;
            x < Start(0, 2 * width, height) && !Touched(2 * width, width / 16, height / 16, 0, x)
  {
    var pitch, x := 2 * width, 2 * width - 1;
    StartMono(0, pitch, 0, height);
    forall row: nat, c: nat | Before(width / 16, row, c, height / 16, 0) ensures !InRow(pitch, row, c, x) {
      StartShift(32 * c, pitch, row);
      if row > 0 { StartMono(0, pitch, 0, row); }
      hide Start;
      assert 32 * c + 32 <= 2 * width - 1;
    }
  }

  /** A line too many: its last byte is not touched. */
  lemma LastLine(width: nat, height: nat)
    requires width > 0 && height > 0 && height % 16 != 0
    ensures var x := Start(0, 2 * width, height) - 1;
            x >= 0 && !Touched(2 * width, width / 16, height / 16, 0, x)
  {
    var pitch, x := 2 * width, Start(0, 2 * width, height) - 1;
    StartMono(0, pitch, height - 1, height);
    forall row: nat, c: nat | Before(width / 16, row, c, height / 16, 0) ensures !InRow(pitch, row, c, x) {
      assert row + 1 < height;
      StartShift(32 * c, pitch, row);
      StartMono(0, pitch, row, row + 1);
      if row + 1 < height - 1 { StartMono(0, pitch, row + 1, height - 1); }
      hide Start;
      assert 32 * c + 32 <= pitch;
    }
  }

  /** The luma and the chroma byte of the pixel in this row and column of the picture,
      from the samples of its MCU. */
  function Luma(s: Samples, row: nat, col: nat): byte {
    Clip(s[64 * (2 * (row % 16 / 8) + col % 16 / 8) + 8 * (row % 8) + col % 8])
  }

  function Chroma(s: Samples, row: nat, col: nat): byte {
    Clip(128 + s[(if col % 2 == 0 then 256 else 320) + 8 * (row % 16 / 2) + col % 16 / 2])
  }

  lemma PixelOfMcu(s: Samples, row: nat, col: nat)
    ensures YuyvByte(s, row % 16, 2 * (col % 16)) == Luma(s, row, col)
    ensures YuyvByte(s, row % 16, 2 * (col % 16) + 1) == Chroma(s, row, col)
  {
    PixelBytes(s, row % 16, col % 16);
    PixelIndex(row, col);
    hide Clip, YuyvByte, LumaIndex;
  }

  lemma PixelIndex(row: nat, col: nat)
    ensures LumaIndex(row % 16, col % 16) == 64 * (2 * (row % 16 / 8) + col % 16 / 8) + 8 * (row % 8) + col % 8
    ensures col % 16 % 2 == col % 2
  {
    Mod16(row);
    Mod16(col);
  }

  lemma Mod16(x: nat)
    ensures x % 16 % 8 == x % 8 && x % 16 % 2 == x % 2
  {
    var q, r := x / 16, x % 16;
    assert x == 16 * q + r && r == 8 * (r / 8) + r % 8 && r == 2 * (r / 2) + r % 2;
    DivModUnique(x, 8, 2 * q + r / 8, r % 8);
    DivModUnique(x, 2, 8 * q + r / 2, r % 2);
  }

  /** The picture shows this luma and this chroma at a place. */
  ghost predicate PixelAt(pic: array<byte>, at: nat, luma: byte, chroma: byte)
    reads pic
  {
    at + 1 < pic.Length && pic[at] == luma && pic[at + 1] == chroma
  }

  /** By pixel of the whole picture: its luma byte is the clipped sample of its block of
      its MCU, and its chroma byte that of U in even columns and of V in odd ones. */
  lemma PixelShown(pic: array<byte>, width: nat, height: nat, mcus: seq<Mcu>, q: Quants, row: nat, col: nat)
    requires ShownUpTo(pic, 2 * width, width / 16, mcus, q, height / 16, 0)
    requires row / 16 < height / 16 && col / 16 < width / 16
    ensures var k := McuNumber(width / 16, row / 16, col / 16);
            k < |mcus| &&
            var s := McuSamples(mcus[k], q);
            PixelAt(pic, Start(2 * col, 2 * width, row), Luma(s, row, col), Chroma(s, row, col))
  {
    hide *;
    var c := col / 16;
    ShownOne(pic, 2 * width, width / 16, height / 16, mcus, q, row, c);
    var s := McuSamples(mcus[McuNumber(width / 16, row / 16, c)], q);
    RowPixel(pic, Start(32 * c, 2 * width, row), s, row % 16, col % 16);
    PixelOfMcu(s, row, col);
    PixelPlace(2 * width, row, col);
    PixelIs(pic, Start(2 * col, 2 * width, row), Luma(s, row, col), Chroma(s, row, col));
  }

  lemma ShownOne(pic: array<byte>, pitch: nat, mcusx: nat, my: nat, mcus: seq<Mcu>, q: Quants, row: nat, c: nat)
    requires ShownUpTo(pic, pitch, mcusx, mcus, q, my, 0) && row / 16 < my && c < mcusx
    ensures var k := McuNumber(mcusx, row / 16, c);
            k < |mcus| && RowAt(pic, Start(32 * c, pitch, row), McuSamples(mcus[k], q), row % 16, 32)
  {
    hide RowAt, McuSamples, Start;
    assert Before(mcusx, row, c, my, 0);
  }

  lemma RowPixel(pic: array<byte>, at: nat, s: Samples, r: nat, b: nat)
    requires RowAt(pic, at, s, r, 32) && b < 16
    ensures r < 16 && at + 2 * b + 1 < pic.Length
    ensures pic[at + 2 * b] == YuyvByte(s, r, 2 * b) && pic[at + 2 * b + 1] == YuyvByte(s, r, 2 * b + 1)
  {
    hide YuyvByte;
  }

  lemma PixelPlace(pitch: nat, row: nat, col: nat)
    ensures Start(2 * col, pitch, row) == Start(32 * (col / 16), pitch, row) + 2 * (col % 16)
  {
    StartShift(2 * col, pitch, row);
    StartShift(32 * (col / 16), pitch, row);
  }

  lemma PixelIs(pic: array<byte>, at: nat, luma: byte, chroma: byte)
    requires at + 1 < pic.Length && pic[at] == luma && pic[at + 1] == chroma
    ensures PixelAt(pic, at, luma, chroma)
  {
  }

  /** The sample in row r and column c of block b of an MCU. */
  function LumaSample(m: Mcu, q: Quants, r: nat, c: nat): int
    requires r < 16 && c < 16
  {
    Idct.Sample(Idct.Dequantised(m[2 * (r / 8) + c / 8], q.y), Idct.IFix(128.5), r % 8, c % 8)
  }

  function ChromaSample(m: Mcu, q: Quants, r: nat, c: nat): int
    requires r < 16 && c < 16
  {
    128 + Idct.Sample(if c % 2 == 0 then Idct.Dequantised(m[4], q.u) else Idct.Dequantised(m[5], q.v),
                      Idct.IFix(0.5), r / 2, c / 2)
  }

  /** Down to the coefficients: the luma byte of a pixel is the byte nearest to the sample
      of its place in one of the first four blocks, and its chroma byte the one nearest to
      128 more than the sample of U or V that a square of four pixels shares. */
  lemma PixelNearest(pic: array<byte>, width: nat, height: nat, mcus: seq<Mcu>, q: Quants, row: nat, col: nat)
    requires ShownUpTo(pic, 2 * width, width / 16, mcus, q, height / 16, 0)
    requires row / 16 < height / 16 && col / 16 < width / 16
    ensures var k, at := row / 16 * (width / 16) + col / 16, row * (2 * width) + 2 * col;
            && k < |mcus| && at + 1 < pic.Length
            && Nearest(pic[at], LumaSample(mcus[k], q, row % 16, col % 16))
            && Nearest(pic[at + 1], ChromaSample(mcus[k], q, row % 16, col % 16))
  {
    hide *;
    PixelShown(pic, width, height, mcus, q, row, col);
    StartIs(2 * col, 2 * width, row);
    NumberIs(width / 16, row / 16, col / 16);
    var k, at := McuNumber(width / 16, row / 16, col / 16), Start(2 * col, 2 * width, row);
    PixelBack(pic, at, McuSamples(mcus[k], q), row, col);
    LumaOf(mcus[k], q, row, col);
    ChromaOf(mcus[k], q, row, col);
    ClipNearest(LumaSample(mcus[k], q, row % 16, col % 16), pic[at]);
    ClipNearest(ChromaSample(mcus[k], q, row % 16, col % 16), pic[at + 1]);
  }

  lemma NumberIs(mcusx: nat, my: nat, c: nat)
    ensures McuNumber(mcusx, my, c) == my * mcusx + c
  {
    StartIs(c, mcusx, my);
  }

  lemma PixelBack(pic: array<byte>, at: nat, s: Samples, row: nat, col: nat)
    requires PixelAt(pic, at, Luma(s, row, col), Chroma(s, row, col))
    ensures at + 1 < pic.Length && pic[at] == Luma(s, row, col) && pic[at + 1] == Chroma(s, row, col)
  {
  }

  lemma InBlock(r: nat, c: nat)
    ensures (8 * r + c % 8) / 8 == r && (8 * r + c % 8) % 8 == c % 8
  {
  }

  lemma LumaOf(m: Mcu, q: Quants, row: nat, col: nat)
    ensures Luma(McuSamples(m, q), row, col) == Clip(LumaSample(m, q, row % 16, col % 16))
  {
    hide Clip, McuSamples, Idct.Sample, Idct.Dequantised, Idct.IFix;
    Mod16(row);
    Mod16(col);
    var b, i := 2 * (row % 16 / 8) + col % 16 / 8, 8 * (row % 8) + col % 8;
    InBlock(row % 8, col);
    assert b < 4 && i < 64;
    SampleAt(m, q, b, i);
  }

  lemma ChromaOf(m: Mcu, q: Quants, row: nat, col: nat)
    ensures Chroma(McuSamples(m, q), row, col) == Clip(ChromaSample(m, q, row % 16, col % 16))
  {
    hide Clip, McuSamples, Idct.Sample, Idct.Dequantised, Idct.IFix;
    Mod16(col);
    var r, c := row % 16 / 2, col % 16 / 2;
    assert r < 8 && c < 8 && c % 8 == c;
    InBlock(r, c);
    SampleAt(m, q, if col % 2 == 0 then 4 else 5, 8 * r + c);
  }
}
