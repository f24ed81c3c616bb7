/** The entropy-coded input of the JPEG decoder: bytes are unstuffed and shifted
    into a 32-bit window; once a marker is met the window is fed zeros. */
module BitReaders {
  import opened Bits
  import opened Machine

  /** What one entropy-coded segment holds: its data bytes with the stuffed zeros
      removed, the marker that ends it, and where the input resumes. */
  datatype Segment = Segment(data: seq<byte>, marker: byte, next: nat)

  /** The input from p on reaches a marker (0xFF and a byte other than 0). */
  predicate Terminated(s: seq<byte>, p: nat)
    decreases |s| - p
  {
    p < |s| &&
    if s[p] == 0xff then p + 1 < |s| && (s[p + 1] != 0 || Terminated(s, p + 2))
    else Terminated(s, p + 1)
  }

  function SegmentAt(s: seq<byte>, p: nat): (r: Segment)
    requires Terminated(s, p)
    ensures p + 2 <= r.next <= |s| && r.marker != 0
    ensures s[r.next - 2..r.next] == [0xff, r.marker]
    decreases |s| - p
  {
    if s[p] == 0xff then
      if s[p + 1] != 0 then Segment([], s[p + 1], p + 2)
      else var r := SegmentAt(s, p + 2); Segment([0xff] + r.data, r.marker, r.next)
    else var r := SegmentAt(s, p + 1); Segment([s[p]] + r.data, r.marker, r.next)
  }

  function BitsOf(data: seq<byte>): (s: seq<bool>)
    ensures |s| == 8 * |data|
  {
    if data == [] then [] else Word(data[0], 8) + BitsOf(data[1..])
  }

  /** The byte encoding of section F.1.2.3: a zero is stuffed after every 0xFF. */
  function Stuff(data: seq<byte>): seq<byte> {
    if data == [] then [] else StuffByte(data[0]) + Stuff(data[1..])
  }

  function StuffByte(b: byte): seq<byte> {
    if b == 0xff then [0xff, 0] else [b]
  }

  lemma StuffNext(data: seq<byte>)
    ensures Stuff(data) == if data == [] then [] else StuffByte(data[0]) + Stuff(data[1..])
  {
  }

  lemma ScanMarker(s: seq<byte>, p: nat, marker: byte)
    requires marker != 0 && p + 2 <= |s| && s[p..p + 2] == [0xff, marker]
    ensures Terminated(s, p) && SegmentAt(s, p) == Segment([], marker, p + 2)
  {
    assert s[p] == s[p..p + 2][0] && s[p + 1] == s[p..p + 2][1];
  }

  lemma ScanByte(s: seq<byte>, p: nat, b: byte, rest: Segment)
    requires var w := StuffByte(b); p + |w| <= |s| && s[p..p + |w|] == w
    requires Terminated(s, p + |StuffByte(b)|) && SegmentAt(s, p + |StuffByte(b)|) == rest
    ensures Terminated(s, p) && SegmentAt(s, p) == Segment([b] + rest.data, rest.marker, rest.next)
  {
    assert s[p] == s[p..p + |StuffByte(b)|][0];
    if b == 0xff { assert s[p + 1] == s[p..p + 2][1]; }
  }

  /** Unstuffing inverts stuffing, whatever precedes and follows the segment. */
  lemma {:induction false} ScanStuff(s: seq<byte>, p: nat, data: seq<byte>, marker: byte)
    requires marker != 0
    requires p + |Stuff(data)| + 2 <= |s|
    requires s[p..p + |Stuff(data)| + 2] == Stuff(data) + [0xff, marker]
    ensures Terminated(s, p) && SegmentAt(s, p) == Segment(data, marker, p + |Stuff(data)| + 2)
    decreases |data|
  {
    hide *;
    StuffNext(data);
    if data == [] {
      ScanMarker(s, p, marker);
    } else {
      var first, tail := StuffByte(data[0]), Stuff(data[1..]) + [0xff, marker];
      assert Stuff(data) + [0xff, marker] == first + tail;
      SliceConcat(s, p, first, tail);
      ScanStuff(s, p + |first|, data[1..], marker);
      ScanByte(s, p, data[0], Segment(data[1..], marker, p + |first| + |tail|));
    }
  }

  lemma SliceConcat(s: seq<byte>, p: nat, v: seq<byte>, w: seq<byte>)
    requires p + |v + w| <= |s| && s[p..p + |v + w|] == v + w
    ensures s[p..p + |v|] == v && s[p + |v|..p + |v| + |w|] == w
  {
    assert s[p..p + |v|] == (v + w)[..|v|];
    assert s[p + |v|..p + |v| + |w|] == (v + w)[|v|..];
  }

  /** What falls out of a 32-bit window is not among its low 32 bits. */
  lemma ShowsWindow(x: nat, n: nat, s: seq<bool>, i: nat)
    requires Shows(x, n, s, i) && n <= 32
    ensures Shows(x % TWO32, n, s, i)
  {
    Pow2Values();
    ShowsMod(x, 32, TWO32, n, s, i);
  }

  /** pos bits of source are taken, the next left are in the window, and the
      last of those taken are still above them. */
  ghost predicate WindowAt(bits: nat, left: nat, last: nat, source: seq<bool>, pos: nat) {
    && bits < TWO32 && left + last <= 32 && last <= pos
    && Shows(bits, left + last, source, pos - last)
  }

  /** The input from p on holds the bits of the segment from bit at on, or the
      marker has been met and there are none. */
  ghost predicate InputAt(input: seq<byte>, p: nat, marker: int, segment: Segment, at: nat) {
    var source := BitsOf(segment.data);
    if marker == 0 then
      && Terminated(input, p)
      && SegmentAt(input, p).marker == segment.marker
      && SegmentAt(input, p).next == segment.next
      && at <= |source|
      && source[at..] == BitsOf(SegmentAt(input, p).data)
    else
      marker == segment.marker && p == segment.next && |source| <= at
  }

  /** One step of the scan: a marker, or one byte of data. */
  lemma ScanStep(input: seq<byte>, p: nat, segment: Segment, at: nat)
    requires InputAt(input, p, 0, segment, at)
    ensures p < |input| && (input[p] == 0xff ==> p + 1 < |input|)
    ensures if input[p] == 0xff && input[p + 1] != 0 then
              SegmentAt(input, p).data == [] && InputAt(input, p + 2, input[p + 1], segment, at)
            else
              var next := if input[p] == 0xff then p + 2 else p + 1;
              && InputAt(input, next, 0, segment, at + 8)
              && |SegmentAt(input, p).data| == |SegmentAt(input, next).data| + 1
              && Spells(BitsOf(segment.data), at, Word(input[p], 8))
  {
    if !(input[p] == 0xff && input[p + 1] != 0) {
      var next := if input[p] == 0xff then p + 2 else p + 1;
      var rest := SegmentAt(input, next).data;
      var source := BitsOf(segment.data);
      assert SegmentAt(input, p).data == [input[p]] + rest;
      SplitByte(source, at, input[p], rest);
    }
  }

  lemma SplitByte(source: seq<bool>, at: nat, b: byte, rest: seq<byte>)
    requires at <= |source| && source[at..] == BitsOf([b] + rest)
    ensures at + 8 <= |source| && Spells(source, at, Word(b, 8)) && source[at + 8..] == BitsOf(rest)
  {
    var tail := source[at..];
    assert ([b] + rest)[1..] == rest;
    assert tail == Word(b, 8) + BitsOf(rest);
    assert source[at..at + 8] == tail[..8];
    assert source[at + 8..] == tail[8..];
  }

  /** The next byte of data is exactly what the window is missing. */
  lemma ShiftByte(bits: nat, left: nat, source: seq<bool>, pos: nat, b: byte)
    requires WindowAt(bits, left, 0, source, pos) && left <= 24
    requires Spells(source, pos + left, Word(b, 8))
    ensures WindowAt(Shl(bits, 8, b) % TWO32, left + 8, 0, source, pos)
  {
    WordShows(source, pos + left, b, 8);
    ShowsShl(bits, left, 8, b, source, pos);
    ShowsWindow(Shl(bits, 8, b), left + 8, source, pos);
  }

  /** Past the end of the segment sixteen zeros are what the window is missing. */
  lemma ShiftZeros(bits: nat, left: nat, source: seq<bool>, pos: nat)
    requires WindowAt(bits, left, 0, source, pos) && left <= 16 && |source| <= pos + left
    ensures WindowAt(Shl(bits, 16, 0) % TWO32, left + 16, 0, source, pos)
  {
    NumBeyond(source, pos + left, 16);
    NumShows(16, source, pos + left);
    ShowsShl(bits, left, 16, 0, source, pos);
    ShowsWindow(Shl(bits, 16, 0), left + 16, source, pos);
  }

  lemma Forget(bits: nat, left: nat, last: nat, source: seq<bool>, pos: nat)
    requires WindowAt(bits, left, last, source, pos)
    ensures WindowAt(bits, left, 0, source, pos)
  {
    ShowsSplit(bits, last, left, source, pos - last);
  }

  lemma Take(bits: nat, left: nat, n: nat, source: seq<bool>, pos: nat)
    requires WindowAt(bits, left, 0, source, pos) && n <= left
    ensures WindowAt(bits, left - n, n, source, pos + n)
    ensures Low(Shr(bits, left - n), n) == Num(source, pos, n)
  {
    ShowsSplit(bits, n, left - n, source, pos);
    ShowsNum(Shr(bits, left - n), n, source, pos);
  }

  class BitReader {
    const input: seq<byte>
    var p: nat
    var bits: nat
    var left: nat
    var marker: int

    /** The segment being read; how many of its bits have been taken; and how
        many of those can be pushed back. */
    ghost var segment: Segment
    ghost var pos: nat
    ghost var last: nat

    ghost function Source(): seq<bool>
      reads this`segment
    {
      BitsOf(segment.data)
    }

    ghost predicate Valid()
      reads this
    {
      && segment.marker != 0
      && WindowAt(bits, left, last, Source(), pos)
      && InputAt(input, p, marker, segment, pos + left)
    }

    constructor (input: seq<byte>, start: nat)
      requires Terminated(input, start)
      ensures Valid() && this.input == input
      ensures segment == SegmentAt(input, start) && pos == 0 && last == 0 && left == 0
    {
      this.input := input;
      p, bits, left, marker := start, 0, 0, 0;
      segment := SegmentAt(input, start);
      pos, last := 0, 0;
    }

    /** fillbits: leaves at least 16 bits in the window and no bit lost. */
    method Fill()
      requires Valid()
      modifies this`p, this`bits, this`left, this`marker, this`last
      ensures Valid() && last == 0
      ensures old(left) <= left && 16 <= left
      ensures marker != 0 <==>
                old(marker) != 0 || old(left) + 8 * |SegmentAt(input, old(p)).data| <= 24
    {
      hide Terminated, BitsOf, WindowAt;
      Forget(bits, left, last, Source(), pos);
      last := 0;
      if marker != 0 {
        Pad();
        return;
      }
      ghost var rest := left + 8 * |SegmentAt(input, p).data|;
      while left <= 24
        invariant Valid() && last == 0 && marker == 0
        invariant old(left) <= left
        invariant rest == left + 8 * |SegmentAt(input, p).data|
        invariant left > 24 ==> rest > 24
        decreases |input| - p
      {
        FillByte();
        if marker != 0 {
          Pad();
          return;
        }
      }
    }

    /** One turn of the loop of fillbits, up to the padding at a marker. */
    method FillByte()
      requires Valid() && last == 0 && marker == 0 && left <= 24
      modifies this`p, this`bits, this`left, this`marker
      ensures Valid()
      ensures marker != 0 ==> left == old(left) && |SegmentAt(input, old(p)).data| == 0
      ensures marker == 0 ==>
                && p > old(p) && left == old(left) + 8
                && |SegmentAt(input, p).data| + 1 == |SegmentAt(input, old(p)).data|
    {
      hide Terminated, SegmentAt, BitsOf, WindowAt, InputAt;
      ghost var at := pos + left;
      ScanStep(input, p, segment, at);
      var b := input[p];
      if b == 0xff {
        var m := input[p + 1];
        p := p + 2;
        if m != 0 {
          marker := m;
          return;
        }
      } else {
        p := p + 1;
      }
      ShiftByte(bits, left, Source(), pos, b);
      bits := Shl(bits, 8, b) % TWO32;
      left := left + 8;
      assert pos + left == at + 8;
    }

    /** Once the marker is met the window is fed zeros, sixteen at a time. */
    method Pad()
      requires WindowAt(bits, left, 0, Source(), pos) && |Source()| <= pos + left
      modifies this`bits, this`left
      ensures WindowAt(bits, left, 0, Source(), pos)
      ensures left == if old(left) <= 16 then old(left) + 16 else old(left)
    {
      if left <= 16 {
        ShiftZeros(bits, left, Source(), pos);
        bits := Shl(bits, 16, 0) % TWO32;
        left := left + 16;
      }
    }

    /** GETBITS: the next n bits of the segment, zeros once it is exhausted. */
    method GetBits(n: nat) returns (r: nat)
      requires Valid() && n <= 16
      modifies this`p, this`bits, this`left, this`marker, this`last, this`pos
      ensures Valid()
      ensures r == Num(Source(), old(pos), n)
      ensures pos == old(pos) + n && last == n
    {
      hide Terminated, SegmentAt, BitsOf, InputAt;
      if left < n {
        Fill();
      }
      Forget(bits, left, last, Source(), pos);
      Take(bits, left, n, Source(), pos);
      left := left - n;
      r := Low(Shr(bits, left), n);
      last, pos := n, pos + n;
    }

    /** UNGETBITS: takes back n of the bits that the last get returned. */
    method UngetBits(n: nat)
      requires Valid() && n <= last
      modifies this`left, this`pos, this`last
      ensures Valid()
      ensures pos == old(pos) - n && last == old(last) - n
    {
      hide Terminated, SegmentAt, BitsOf, InputAt;
      hide Shows;
      left := left + n;
      last, pos := last - n, pos - n;
    }

    /** dec_readmarker: the marker that ends the segment, provided the window
        reaches it; reading then resumes behind the marker. */
    method ReadMarker() returns (m: int)
      requires Valid()
      modifies this
      ensures m == 0 ==> Valid() && pos == old(pos) && segment == old(segment)
      ensures m == 0 <==>
                old(marker) == 0 && 24 < old(left) + 8 * |SegmentAt(input, old(p)).data|
      ensures |old(Source())| <= old(pos) + 24 ==> m != 0
      ensures m != 0 ==>
                m == old(segment).marker && p == old(segment).next
                && (Terminated(input, p) ==> Valid() && segment == SegmentAt(input, p) && pos == 0)
    {
      Fill();
      m := marker;
      if m == 0 {
        return;
      }
      left, marker := 0, 0;
      pos, last := 0, 0;
      if Terminated(input, p) {
        segment := SegmentAt(input, p);
      }
    }
  }
}
