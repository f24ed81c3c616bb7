/** yuv420pto422: the six blocks of an MCU placed into a YUYV picture. */
module Yuv {
  import opened Machine

  /** CLIP */
  function Clip(color: int): byte {
    if color > 0xff then 0xff else if color < 0 then 0 else color
  }

  function Distance(x: int, y: int): nat {
    if x < y then y - x else x - y
  }

  /** No byte is nearer to v than b is. */
  ghost predicate Nearest(b: byte, v: int) {
    forall c: byte :: Distance(b, v) <= Distance(c, v)
  }

  /** Clipping gives the nearest byte, and there is only one. */
  lemma ClipNearest(v: int, b: byte)
    ensures Nearest(b, v) <==> b == Clip(v)
  {
    if Nearest(b, v) {
      assert Distance(b, v) <= Distance(Clip(v), v);
    }
  }

  /** The samples of an MCU: four blocks of luma, one of U, one of V. */
  type Samples = s: seq<int> | |s| == 384 witness seq(384, _ => 0)

  /** Where the luma sample of a pixel of the MCU is: its block, and its place there. */
  function LumaIndex(r: nat, c: nat): nat {
    64 * (2 * (r / 8) + c / 8) + 8 * (r % 8) + c % 8
  }

  /** Byte t of the four that hold the pixels 2 q and 2 q + 1 of row r of an MCU:
      luma, U, luma, V. The two-by-two square of the pixels shares its chroma. */
  function QuadByte(s: Samples, r: nat, q: nat, t: nat): byte
    requires r < 16 && q < 8 && t < 4
  {
    match t
    case 0 => Clip(s[LumaIndex(r, 2 * q)])
    case 1 => Clip(128 + s[256 + 8 * (r / 2) + q])
    case 2 => Clip(s[LumaIndex(r, 2 * q + 1)])
    case _ => Clip(128 + s[320 + 8 * (r / 2) + q])
  }

  function YuyvByte(s: Samples, r: nat, b: nat): byte
    requires r < 16 && b < 32
  {
    QuadByte(s, r, b / 4, b % 4)
  }

  /** By pixel: the luma byte of column c, and the chroma byte, which is U where c
      is even and V where it is odd. */
  lemma PixelBytes(s: Samples, r: nat, c: nat)
    requires r < 16 && c < 16
    ensures YuyvByte(s, r, 2 * c) == Clip(s[LumaIndex(r, c)])
    ensures YuyvByte(s, r, 2 * c + 1)
         == Clip(128 + s[(if c % 2 == 0 then 256 else 320) + 8 * (r / 2) + c / 2])
  {
    hide LumaIndex, Clip;
  }

  /** The first n bytes of row r of an MCU, at a place of the picture. */
  ghost predicate RowAt(pic: array<byte>, at: nat, s: Samples, r: nat, n: nat)
    reads pic
  {
    at + n <= pic.Length && r < 16 && n <= 32 &&
    forall m :: at <= m < at + n ==> pic[m] == YuyvByte(s, r, m - at)
  }

  /** The samples that the four bytes 4 k to 4 k + 3 of row r are clipped from. */
  predicate IsQuad(s: Samples, r: nat, k: nat, y0: int, u: int, y1: int, v: int)
    requires r < 16 && k < 8
  {
    && QuadByte(s, r, k, 0) == Clip(y0) && QuadByte(s, r, k, 1) == Clip(128 + u)
    && QuadByte(s, r, k, 2) == Clip(y1) && QuadByte(s, r, k, 3) == Clip(128 + v)
  }

  /** The place of the first luma sample of turn k of turn j, for either row. */
  function LumaPlace(j: nat, k: nat, odd: nat): nat {
    (if j < 4 then 16 * j else 128 + 16 * (j - 4)) + (if k < 4 then 2 * k else 2 * k + 56) + 8 * odd
  }

  lemma LumaPlaces(j: nat, k: nat, odd: nat)
    requires j < 8 && k < 8 && odd < 2
    ensures LumaIndex(2 * j + odd, 2 * k) == LumaPlace(j, k, odd) < 383
    ensures LumaIndex(2 * j + odd, 2 * k + 1) == LumaPlace(j, k, odd) + 1
  {
    var r := 2 * j + odd;
    assert r / 8 == (if j < 4 then 0 else 1);
    assert 2 * k / 8 == (if k < 4 then 0 else 1) == (2 * k + 1) / 8;
  }

  lemma QuadPlaces(s: Samples, j: nat, k: nat, odd: nat)
    requires j < 8 && k < 8 && odd < 2
    ensures var y := LumaPlace(j, k, odd);
            && y < 383
            && IsQuad(s, 2 * j + odd, k, s[y], s[256 + 8 * j + k], s[y + 1], s[320 + 8 * j + k])
  {
    hide Clip, LumaIndex, LumaPlace;
    LumaPlaces(j, k, odd);
    HalfRow(j, odd);
  }

  lemma HalfRow(j: nat, odd: nat)
    requires odd < 2
    ensures (2 * j + odd) / 2 == j
  {
  }

  /** Nothing is written twice. */
  predicate NoRepeats(w: seq<nat>) {
    forall i, j :: 0 <= i < j < |w| ==> w[i] != w[j]
  }

  lemma NoRepeatsConcat(v: seq<nat>, w: seq<nat>)
    requires NoRepeats(v) && NoRepeats(w) && forall x :: x in v ==> x !in w
    ensures NoRepeats(v + w)
  {
    forall i, j | 0 <= i < |v| && 0 <= j < |w| ensures v[i] != w[j] { assert v[i] in v && w[j] in w; }
  }

  /** The places of four bytes. */
  function Quad(row: nat, k: nat): seq<nat> {
    [row + 4 * k, row + 4 * k + 1, row + 4 * k + 2, row + 4 * k + 3]
  }

  /** w are the places of the first 4 k bytes of two rows, each once. */
  ghost predicate RowPlaces(w: seq<nat>, row0: nat, row1: nat, k: nat) {
    && |w| == 8 * k && NoRepeats(w)
    && forall x :: x in w <==> row0 <= x < row0 + 4 * k || row1 <= x < row1 + 4 * k
  }

  lemma RowPlacesNext(w: seq<nat>, row0: nat, row1: nat, k: nat)
    requires RowPlaces(w, row0, row1, k) && row0 + 4 * k + 4 <= row1
    ensures RowPlaces(w + Quad(row0, k) + Quad(row1, k), row0, row1, k + 1)
  {
    NoRepeatsConcat(w, Quad(row0, k));
    NoRepeatsConcat(w + Quad(row0, k), Quad(row1, k));
    hide NoRepeats;
  }

  /** Four bytes of a row: two luma samples, and the chroma they share. Gives the places
      written. */
  method StoreQuad(pic: array<byte>, row: nat, r: nat, k: nat, y0: int, u: int, y1: int, v: int, ghost s: Samples)
    returns (ghost writes: seq<nat>)
    requires r < 16 && k < 8 && row + 32 <= pic.Length
    requires RowAt(pic, row, s, r, 4 * k) && IsQuad(s, r, k, y0, u, y1, v)
    modifies pic
    ensures RowAt(pic, row, s, r, 4 * k + 4) && writes == Quad(row, k)
    ensures forall m :: 0 <= m < row || row + 32 <= m < pic.Length ==> pic[m] == old(pic[m])
  {
    hide Clip, QuadByte;
    var at := row + 4 * k;
    pic[at], pic[at + 1], pic[at + 2], pic[at + 3] := Clip(y0), Clip(128 + u), Clip(y1), Clip(128 + v);
    writes := [at, at + 1, at + 2, at + 3];
  }

  /** Two rows of the MCU: the loop over k for one j. */
  method ConvertRows(out: array<int>, pic: array<byte>, row0: nat, row1: nat, j: nat, outy: nat)
    returns (ghost writes: seq<nat>)
    requires out.Length >= 384 && j < 8 && outy == if j < 4 then 16 * j else 128 + 16 * (j - 4)
    requires row0 + 32 <= row1 && row1 + 32 <= pic.Length
    modifies pic
    ensures RowAt(pic, row0, out[..384], 2 * j, 32) && RowAt(pic, row1, out[..384], 2 * j + 1, 32)
    ensures forall m :: 0 <= m < row0 || row0 + 32 <= m < row1 || row1 + 32 <= m < pic.Length ==> pic[m] == old(pic[m])
    ensures RowPlaces(writes, row0, row1, 8)
  {
    hide Clip, YuyvByte, IsQuad, LumaIndex, RowPlaces, Quad;
    ghost var s := out[..384];
    var outu, outv, outy1, outy2 := 256 + 8 * j, 320 + 8 * j, 0, 8;
    writes := [];
    NoPlaces(row0, row1);
    for k := 0 to 8
      invariant outu == 256 + 8 * j + k && outv == 320 + 8 * j + k && RowPlaces(writes, row0, row1, k)
      invariant outy1 == (if k <= 4 then 2 * k else 2 * k + 56) && outy2 == outy1 + 8
      invariant RowAt(pic, row0, s, 2 * j, 4 * k) && RowAt(pic, row1, s, 2 * j + 1, 4 * k)
      invariant forall m :: 0 <= m < row0 || row0 + 32 <= m < row1 || row1 + 32 <= m < pic.Length ==>
                  pic[m] == old(pic[m])
    {
      if k == 4 {
        outy1 := outy1 + 56;
        outy2 := outy2 + 56;
      }
      QuadPlaces(s, j, k, 0);
      QuadPlaces(s, j, k, 1);
      ghost var w0 := StoreQuad(pic, row0, 2 * j, k,
                                out[outy + outy1], out[outu], out[outy + outy1 + 1], out[outv], s);
      ghost var w1 := StoreQuad(pic, row1, 2 * j + 1, k,
                                out[outy + outy2], out[outu], out[outy + outy2 + 1], out[outv], s);
      RowPlacesNext(writes, row0, row1, k);
      writes := writes + w0 + w1;
      outy1, outy2, outu, outv := outy1 + 2, outy2 + 2, outu + 1, outv + 1;
    }
  }

  lemma NoPlaces(row0: nat, row1: nat)
    ensures RowPlaces([], row0, row1, 0)
  {
  }

  /** Where row r begins, when row 0 begins at base and rows are pitch bytes apart. */
  function Start(base: nat, pitch: nat, r: nat): nat {
    if r == 0 then base else Start(base, pitch, r - 1) + pitch
  }

  lemma {:induction false} StartIs(base: nat, pitch: nat, r: nat)
    ensures Start(base, pitch, r) == base + r * pitch
  {
    if r == 0 {
    } else {
      StartIs(base, pitch, r - 1);
      assert (r - 1) * pitch + pitch == r * pitch;
    }
  }

  lemma {:induction false} StartAdd(base: nat, d: nat, pitch: nat, q: nat, r: nat)
    ensures Start(Start(base, pitch, q) + d, pitch, r) == Start(base, pitch, q + r) + d
    decreases r
  {
    if r == 0 {
    } else {
      StartAdd(base, d, pitch, q, r - 1);
    }
  }

  lemma StartShift(d: nat, pitch: nat, r: nat)
    ensures Start(d, pitch, r) == Start(0, pitch, r) + d
  {
    StartAdd(0, d, pitch, 0, r);
  }

  lemma {:induction false} StartMono(base: nat, pitch: nat, q: nat, r: nat)
    requires q < r
    ensures Start(base, pitch, q) + pitch <= Start(base, pitch, r)
    decreases r
  {
    if q + 1 < r { StartMono(base, pitch, q, r - 1); }
  }

  /** The first n rows of an MCU that is placed at base. */
  ghost predicate RowsAt(pic: array<byte>, base: nat, pitch: nat, s: Samples, n: nat)
    reads pic
  {
    n <= 16 && forall r :: 0 <= r < n ==> RowAt(pic, Start(base, pitch, r), s, r, 32)
  }

  ghost predicate Outside(base: nat, pitch: nat, n: nat, m: nat) {
    forall r :: 0 <= r < n ==> !(Start(base, pitch, r) <= m < Start(base, pitch, r) + 32)
  }

  /** w are the places of the first n rows of an MCU, each once. */
  ghost predicate Places(w: seq<nat>, base: nat, pitch: nat, n: nat) {
    |w| == 32 * n && NoRepeats(w) && forall x: nat :: x in w <==> !Outside(base, pitch, n, x)
  }

  lemma PlacesNone(base: nat, pitch: nat)
    ensures Places([], base, pitch, 0)
  {
  }

  lemma PlacesNext(v: seq<nat>, w: seq<nat>, base: nat, pitch: nat, j: nat)
    requires j < 8 && pitch >= 32 && Places(v, base, pitch, 2 * j)
    requires RowPlaces(w, Start(base, pitch, 2 * j), Start(base, pitch, 2 * j) + pitch, 8)
    ensures Places(v + w, base, pitch, 2 * j + 2)
  {
    RowsBefore(base, pitch, j);
    hide Start, NoRepeats;
    forall x: nat ensures !Outside(base, pitch, 2 * j + 2, x) <==> !Outside(base, pitch, 2 * j, x) || x in w {
      if x in w { assert !Outside(base, pitch, 2 * j + 2, x); }
    }
    forall x | x in v ensures x !in w {
      var r :| 0 <= r < 2 * j && Start(base, pitch, r) <= x < Start(base, pitch, r) + 32;
    }
    NoRepeatsConcat(v, w);
  }

  /** One turn of the loop over j. */
  method ConvertPair(out: array<int>, pic: array<byte>, base: nat, pitch: nat, j: nat, outy: nat, row0: nat)
    returns (ghost writes: seq<nat>)
    requires out.Length >= 384 && j < 8 && outy == if j < 4 then 16 * j else 128 + 16 * (j - 4)
    requires pitch >= 32 && Start(base, pitch, 15) + 32 <= pic.Length
    requires row0 == Start(base, pitch, 2 * j) && RowsAt(pic, base, pitch, out[..384], 2 * j)
    modifies pic
    ensures RowsAt(pic, base, pitch, out[..384], 2 * j + 2) && RowPlaces(writes, row0, row0 + pitch, 8)
    ensures forall m :: 0 <= m < pic.Length && Outside(base, pitch, 2 * j + 2, m) ==> pic[m] == old(pic[m])
  {
    hide YuyvByte, Start, RowPlaces;
    RowsBefore(base, pitch, j);
    writes := ConvertRows(out, pic, row0, row0 + pitch, j, outy);
  }

  lemma RowsBefore(base: nat, pitch: nat, j: nat)
    requires j < 8
    ensures Start(base, pitch, 2 * j + 1) == Start(base, pitch, 2 * j) + pitch <= Start(base, pitch, 15)
    ensures forall r :: 0 <= r < 2 * j ==> Start(base, pitch, r) + pitch <= Start(base, pitch, 2 * j)
  {
    forall r | 0 <= r < 2 * j
      ensures Start(base, pitch, r) + pitch <= Start(base, pitch, 2 * j)
    {
      StartMono(base, pitch, r, 2 * j);
    }
    if 2 * j + 1 < 15 { StartMono(base, pitch, 2 * j + 1, 15); }
  }

  /** yuv420pto422: sixteen rows, two at a time. */
  method Convert420(out: array<int>, pic: array<byte>, base: nat, pitch: nat) returns (ghost writes: seq<nat>)
    requires out.Length >= 384 && pitch >= 32 && Start(base, pitch, 15) + 32 <= pic.Length
    modifies pic
    ensures RowsAt(pic, base, pitch, out[..384], 16) && Places(writes, base, pitch, 16)
    ensures forall m :: 0 <= m < pic.Length && Outside(base, pitch, 16, m) ==> pic[m] == old(pic[m])
  {
    hide RowAt, Start, RowPlaces, Places;
    var pic0, outy := base, 0;
    writes := [];
    PlacesNone(base, pitch);
    StartAt0(base, pitch);
    for j := 0 to 8
      invariant outy == (if j < 4 then 16 * j else 128 + 16 * (j - 4)) && pic0 == Start(base, pitch, 2 * j)
      invariant RowsAt(pic, base, pitch, out[..384], 2 * j) && Places(writes, base, pitch, 2 * j)
      invariant forall m :: 0 <= m < pic.Length && Outside(base, pitch, 2 * j, m) ==> pic[m] == old(pic[m])
    {
      ghost var n := ConvertPair(out, pic, base, pitch, j, outy, pic0);
      StartNext2(base, pitch, j);
      PlacesNext(writes, n, base, pitch, j);
      outy := if j == 3 then 128 else outy + 16;
      pic0 := pic0 + 32 + 2 * (pitch - 16);
      writes := writes + n;
    }
  }

  lemma StartAt0(base: nat, pitch: nat)
    ensures Start(base, pitch, 0) == base
  {
  }

  lemma StartNext2(base: nat, pitch: nat, j: nat)
    ensures Start(base, pitch, 2 * j + 2) == Start(base, pitch, 2 * j) + 2 * pitch
  {
    assert Start(base, pitch, 2 * j + 1) == Start(base, pitch, 2 * j) + pitch;
  }
}
