/** resize of gui.c: rows are shrunk by taking pixels, so that U and V still alternate. */
module Resize {
  import opened Bits

  /** A pixel of a row: its luma, and U if its column is even, V if it is odd. */
  datatype Yuyv = Yuyv(y0: int, u0: int)

  /** (Owidth << 16) / width */
  function XScale(owidth: nat, width: nat): nat
    requires width > 0
  {
    owidth * 0x1_0000 / width
  }

  /** The column that output column x is scaled to: x * xscale >> 16. */
  function Scaled(x: nat, xscale: nat): nat {
    x * xscale / 0x1_0000
  }

  /** How many pixels come before pixel x of row y. */
  function Number(y: nat, x: nat, width: nat): nat {
    y * width + x
  }

  /** The column a pixel is taken from: the scaled one if it has the parity of the pixel's
      number, and otherwise the one before it. */
  function Column(y: nat, x: nat, owidth: nat, width: nat): int
    requires width > 0
  {
    var rx := Scaled(x, XScale(owidth, width));
    if rx % 2 == Number(y, x, width) % 2 then rx else rx - 1
  }

  /** ADDRESSE */
  function Addresse(x: int, y: nat, w: nat): int {
    y * w + x
  }

  /** Where a pixel is taken from. */
  function Address(y: nat, x: nat, owidth: nat, width: nat): int
    requires width > 0
  {
    Addresse(Column(y, x, owidth, width), y, owidth)
  }

  /** U and V alternate over the whole output, as they do in a row of the input; and a
      pixel is the scaled one or the one before it. */
  lemma ColumnParity(y: nat, x: nat, owidth: nat, width: nat)
    requires width > 0
    ensures var c := Column(y, x, owidth, width);
            && c % 2 == Number(y, x, width) % 2
            && Scaled(x, XScale(owidth, width)) - 1 <= c <= Scaled(x, XScale(owidth, width))
  {
    hide Scaled, Number, XScale;
  }

  lemma ScaleBound(owidth: nat, width: nat)
    requires width > 0
    ensures width * XScale(owidth, width) <= owidth * 0x1_0000
    ensures width <= owidth ==> XScale(owidth, width) >= 0x1_0000
    ensures width > owidth ==> XScale(owidth, width) < 0x1_0000
  {
    var n := owidth * 0x1_0000;
    var q := XScale(owidth, width);
    assert n == width * q + n % width;
    if width <= owidth && q < 0x1_0000 {
      MulMono(q, 0xFFFF, width);
    }
    if width > owidth && q >= 0x1_0000 {
      MulMono(0x1_0000, q, width);
    }
  }

  /** The scaled column is x * owidth / width, rounded down, or the one before it: twice it
      has been rounded. */
  lemma ScaledNear(x: nat, owidth: nat, width: nat)
    requires width > 0 && x <= 0x1_0000
    ensures var s := Scaled(x, XScale(owidth, width)); s * width <= x * owidth < (s + 2) * width
  {
    var n := owidth * 0x1_0000;
    var q := XScale(owidth, width);
    var r := n % width;
    assert n == width * q + r;
    hide XScale;
    var s, t := Scaled(x, q), x * q % 0x1_0000;
    assert x * q == s * 0x1_0000 + t;
    hide Scaled;
    assert x * owidth * 0x1_0000 == x * q * width + x * r by { Spread(x, q, width, r, n); }
    assert x * q * width == s * width * 0x1_0000 + t * width by { Times(s, t, width); }
    assert 0 <= x * r + t * width < 2 * width * 0x1_0000 by { Rests(x, r, t, width); }
    assert (s + 2) * width == s * width + 2 * width;
  }

  lemma Spread(x: nat, q: nat, width: nat, r: nat, n: nat)
    requires n == width * q + r
    ensures x * n == x * q * width + x * r
  {
    assert x * (width * q) == x * q * width;
    assert x * (width * q + r) == x * (width * q) + x * r;
  }

  lemma Times(s: nat, t: nat, width: nat)
    ensures (s * 0x1_0000 + t) * width == s * width * 0x1_0000 + t * width
  {
  }

  lemma Rests(x: nat, r: nat, t: nat, width: nat)
    requires x <= 0x1_0000 && r < width && t < 0x1_0000
    ensures x * r + t * width < 2 * width * 0x1_0000
  {
    MulMono(x, 0x1_0000, r);
    MulMono(t, 0xFFFF, width);
  }

  /** So every column taken is that one or one of the two before it. */
  lemma ColumnNear(y: nat, x: nat, owidth: nat, width: nat)
    requires width > 0 && x <= 0x1_0000
    ensures x * owidth / width - 2 <= Column(y, x, owidth, width) <= x * owidth / width
  {
    var s, n := Scaled(x, XScale(owidth, width)), x * owidth;
    ScaledNear(x, owidth, width);
    ColumnParity(y, x, owidth, width);
    hide Scaled, XScale, Column;
    QuotientNear(s, n, width);
  }

  lemma QuotientNear(s: nat, n: nat, width: nat)
    requires width > 0 && s * width <= n < (s + 2) * width
    ensures n / width - 1 <= s <= n / width
  {
    var q, r := n / width, n % width;
    assert n == q * width + r;
    if s > q { MulMono(q + 1, s, width); }
    if q > s + 1 { MulMono(s + 2, q, width); }
    assert (q + 1) * width == q * width + width;
  }

  /** Shrinking, a scaled column is inside the row, and at least the output column. */
  lemma ScaledInside(x: nat, owidth: nat, width: nat)
    requires x < width <= owidth
    ensures x <= Scaled(x, XScale(owidth, width)) < owidth
  {
    ScaleBound(owidth, width);
    var q := XScale(owidth, width);
    hide XScale;
    MulMono(0x1_0000, q, x);
    Less(x, width, q);
  }

  lemma Less(x: nat, width: nat, q: nat)
    requires x < width
    ensures x * q + q <= width * q
  {
    MulMono(x + 1, width, q);
    assert (x + 1) * q == x * q + q;
  }

  /** All pixels are taken from their own row. */
  ghost predicate InOwnRow(owidth: nat, width: nat, height: nat)
    requires width > 0
  {
    forall y, x :: 0 <= y < height && 0 <= x < width ==> 0 <= Column(y, x, owidth, width) < owidth
  }

  lemma InsideColumn(y: nat, x: nat, owidth: nat, width: nat)
    requires x < width <= owidth && (width % 2 == 0 || y == 0)
    ensures 0 <= Column(y, x, owidth, width) < owidth
  {
    ScaledInside(x, owidth, width);
    if x == 0 {
      assert Scaled(0, XScale(owidth, width)) == 0;
      EvenRows(y, width);
    }
    hide Scaled, XScale;
  }

  lemma EvenRows(y: nat, width: nat)
    requires width % 2 == 0 || y == 0
    ensures Number(y, 0, width) % 2 == 0
  {
    var h := width / 2;
    assert y * width == 2 * (y * h) || y == 0;
  }

  /** That is so if and only if the output is no wider than the input, and has an even
      width or a single row. */
  lemma InOwnRowExactly(owidth: nat, width: nat, height: nat)
    requires width > 0 && height > 0
    ensures InOwnRow(owidth, width, height) <==> width <= owidth && (width % 2 == 0 || height == 1)
  {
    if width <= owidth && (width % 2 == 0 || height == 1) {
      forall y, x | 0 <= y < height && 0 <= x < width ensures 0 <= Column(y, x, owidth, width) < owidth {
        InsideColumn(y, x, owidth, width);
      }
    } else if width > owidth {
      TooWide(owidth, width);
    } else {
      OddRow(owidth, width);
      assert Column(1, 0, owidth, width) == -1;
    }
  }

  /** Growing: the second pixel is taken from before the row; of a row of one pixel,
      the first is taken from an input without any. */
  lemma TooWide(owidth: nat, width: nat)
    requires width > owidth
    ensures width > 1 ==> Column(0, 1, owidth, width) == Address(0, 1, owidth, width) == -1
    ensures width == 1 ==> Column(0, 0, owidth, width) == Address(0, 0, owidth, width) == 0 == owidth
  {
    hide XScale, Scaled, Number, Addresse;
    ScaledFirst(owidth, width);
    FirstRow(0, owidth, width);
    FirstRow(1, owidth, width);
    FirstRow(-1, owidth, width);
  }

  lemma ScaledFirst(owidth: nat, width: nat)
    requires width > owidth
    ensures Scaled(0, XScale(owidth, width)) == Scaled(1, XScale(owidth, width)) == 0
  {
    ScaleBound(owidth, width);
    hide XScale;
  }

  lemma FirstRow(x: int, owidth: nat, width: nat)
    ensures Addresse(x, 0, owidth) == x && (x >= 0 ==> Number(0, x, width) == x)
  {
  }

  /** An odd width: the first pixel of the second row is. */
  lemma OddRow(owidth: nat, width: nat)
    requires width % 2 == 1
    ensures Column(1, 0, owidth, width) == -1
  {
    assert Number(1, 0, width) == width;
    assert Scaled(0, XScale(owidth, width)) == 0;
    hide XScale;
  }

  /** All pixels are taken from the input buffer. */
  ghost predicate InBuffer(owidth: nat, width: nat, height: nat, length: nat)
    requires width > 0
  {
    forall y, x :: 0 <= y < height && 0 <= x < width ==> 0 <= Address(y, x, owidth, width) < length
  }

  /** A column of a row, or the one before it. */
  lemma NearColumn(y: nat, x: nat, owidth: nat, width: nat)
    requires x < width <= owidth
    ensures -1 <= Column(y, x, owidth, width) < owidth
    ensures y == 0 ==> Column(y, x, owidth, width) >= 0
  {
    ScaledInside(x, owidth, width);
    if y == 0 { InsideColumn(0, x, owidth, width); }
    hide Scaled, XScale;
  }

  lemma NearAddress(y: nat, x: nat, owidth: nat, width: nat, oheight: nat)
    requires x < width <= owidth && y < oheight
    ensures 0 <= Address(y, x, owidth, width) < owidth * oheight
  {
    NearColumn(y, x, owidth, width);
    hide Column;
    Less(y, oheight, owidth);
    if y > 0 { Less(0, y, owidth); }
  }

  /** A row behind the input: its second pixel is taken from behind the buffer. */
  lemma BehindBuffer(owidth: nat, oheight: nat, width: nat)
    requires 1 < width <= owidth
    ensures Address(oheight, 1, owidth, width) >= owidth * oheight
  {
    ScaledInside(1, owidth, width);
    hide Scaled, XScale, Number;
  }

  /** A row of one pixel is taken from the row before if it has an odd number. */
  lemma OnePixel(y: nat, owidth: nat)
    requires owidth > 0
    ensures Address(y, 0, owidth, 1) == owidth * y - y % 2
  {
    assert Scaled(0, XScale(owidth, 1)) == 0 && Number(y, 0, 1) == y;
    hide Scaled, XScale, Number;
  }

  /** All pixels are taken from inside the input buffer if and only if the output is no
      wider than the input and no higher: an odd width takes pixels from the row before,
      but not from outside. One row more is possible if it is a single pixel and is taken
      from the row before. */
  lemma InBufferExactly(owidth: nat, oheight: nat, width: nat, height: nat)
    requires width > 0 && height > 0
    ensures InBuffer(owidth, width, height, owidth * oheight) <==>
              width <= owidth && (height <= oheight || (width == 1 && height == oheight + 1 && oheight % 2 == 1))
  {
    hide Address, Column;
    if width > owidth {
      TooWide(owidth, width);
      assert owidth == 0 ==> owidth * oheight == 0;
    } else if height <= oheight {
      RowsInside(owidth, oheight, width, height);
    } else if width > 1 {
      BehindBuffer(owidth, oheight, width);
    } else {
      OneColumn(owidth, oheight, height);
    }
  }

  lemma RowsInside(owidth: nat, oheight: nat, width: nat, height: nat)
    requires 0 < width <= owidth && height <= oheight
    ensures InBuffer(owidth, width, height, owidth * oheight)
  {
    hide Address;
    forall y, x | 0 <= y < height && 0 <= x < width
      ensures 0 <= Address(y, x, owidth, width) < owidth * oheight
    {
      NearAddress(y, x, owidth, width, oheight);
    }
  }

  /** A single column with more rows than the input. */
  lemma OneColumn(owidth: nat, oheight: nat, height: nat)
    requires owidth > 0 && height > oheight
    ensures InBuffer(owidth, 1, height, owidth * oheight) <==> height == oheight + 1 && oheight % 2 == 1
  {
    RowsInside(owidth, oheight, 1, oheight);
    hide Address;
    OnePixel(oheight, owidth);
    OnePixel(oheight + 1, owidth);
    assert owidth * (oheight + 1) == owidth * oheight + owidth;
    if oheight % 2 == 1 { MulMono(1, oheight, owidth); }
  }

  /** The buttons are 640 pixels wide; a camera of 800 has them stretched, and the second
      pixel is taken from before the buffer. */
  lemma BeforeTheBuffer()
    ensures Address(0, 1, 640, 800) == -1 && !InBuffer(640, 800, 32, 640 * 32)
  {
    TooWide(640, 800);
    InBufferExactly(640, 32, 800, 32);
    hide Address;
  }

  /** A pixel of the input, or what memory holds around it. */
  function Pixel(input: seq<Yuyv>, outside: int -> Yuyv, a: int): Yuyv {
    if 0 <= a < |input| then input[a] else outside(a)
  }

  /** The first x pixels of row y of the output, and its first y rows. */
  function Row(input: seq<Yuyv>, outside: int -> Yuyv, y: nat, x: nat, owidth: nat, width: nat): (s: seq<Yuyv>)
    requires width > 0
    ensures |s| == x
  {
    if x == 0 then []
    else Row(input, outside, y, x - 1, owidth, width) + [Pixel(input, outside, Address(y, x - 1, owidth, width))]
  }

  function Picture(input: seq<Yuyv>, outside: int -> Yuyv, y: nat, owidth: nat, width: nat): (s: seq<Yuyv>)
    requires width > 0
    ensures |s| == Number(y, 0, width)
  {
    if y == 0 then []
    else
      NumberNext(y - 1, 0, width);
      Picture(input, outside, y - 1, owidth, width) + Row(input, outside, y - 1, width, owidth, width)
  }

  lemma NumberNext(y: nat, x: nat, width: nat)
    ensures Number(y, x, width) == Number(y, 0, width) + x
    ensures Number(y + 1, 0, width) == Number(y, 0, width) + width
    ensures Number(0, 0, width) == 0
  {
    assert (y + 1) * width == y * width + width;
  }

  lemma {:induction false} RowAt(input: seq<Yuyv>, outside: int -> Yuyv, y: nat, n: nat, owidth: nat, width: nat,
                                 x: nat)
    requires width > 0 && x < n
    ensures Row(input, outside, y, n, owidth, width)[x] ==
            Pixel(input, outside, Address(y, x, owidth, width))
  {
    hide Pixel, Address;
    if x == n - 1 {
    } else {
      RowAt(input, outside, y, n - 1, owidth, width, x);
    }
  }

  /** The pixel with a number is where it should be. */
  lemma {:induction false} PictureAt(input: seq<Yuyv>, outside: int -> Yuyv, height: nat,
                                     owidth: nat, width: nat, y: nat, x: nat)
    requires x < width && y < height
    ensures Number(y, x, width) < Number(height, 0, width)
    ensures Picture(input, outside, height, owidth, width)[Number(y, x, width)] ==
            Pixel(input, outside, Address(y, x, owidth, width))
  {
    hide Pixel, Address, Number, Row;
    NumberNext(y, x, width);
    NumberNext(height - 1, 0, width);
    if y < height - 1 {
      PictureAt(input, outside, height - 1, owidth, width, y, x);
    } else {
      RowAt(input, outside, y, width, owidth, width, x);
    }
  }

  /** In other words: each pixel of the output is one of its row, about as far to the right
      in the input as it is in the output, and of the right chroma. */
  lemma PictureScaled(input: seq<Yuyv>, outside: int -> Yuyv, height: nat, owidth: nat, width: nat, y: nat, x: nat)
    requires x < width && y < height && x <= 0x1_0000
    ensures y * width + x < |Picture(input, outside, height, owidth, width)|
    ensures exists c :: x * owidth / width - 2 <= c <= x * owidth / width && c % 2 == (y * width + x) % 2 &&
              Picture(input, outside, height, owidth, width)[y * width + x] ==
              Pixel(input, outside, y * owidth + c)
  {
    PictureAt(input, outside, height, owidth, width, y, x);
    ColumnNear(y, x, owidth, width);
    ColumnParity(y, x, owidth, width);
    AddressOf(y, x, owidth, width);
    hide Picture, Column, Address;
    assert Picture(input, outside, height, owidth, width)[y * width + x] ==
           Pixel(input, outside, y * owidth + Column(y, x, owidth, width));
  }

  lemma RowNext(input: seq<Yuyv>, outside: int -> Yuyv, y: nat, x: nat, owidth: nat, width: nat)
    requires width > 0
    ensures Row(input, outside, y, 0, owidth, width) == []
    ensures Row(input, outside, y, x + 1, owidth, width) ==
            Row(input, outside, y, x, owidth, width) + [Pixel(input, outside, Address(y, x, owidth, width))]
    ensures Picture(input, outside, 0, owidth, width) == []
    ensures Picture(input, outside, y + 1, owidth, width) ==
            Picture(input, outside, y, owidth, width) + Row(input, outside, y, width, owidth, width)
  {
  }

  /** Inside the buffer, what is around it does not matter. */
  lemma {:induction false} PictureInside(input: seq<Yuyv>, outside: int -> Yuyv, other: int -> Yuyv, height: nat,
                                         owidth: nat, width: nat)
    requires width > 0 && InBuffer(owidth, width, height, |input|)
    ensures Picture(input, outside, height, owidth, width) == Picture(input, other, height, owidth, width)
  {
    hide Row, Address;
    if height == 0 {
    } else {
      PictureInside(input, outside, other, height - 1, owidth, width);
      RowInside(input, outside, other, height - 1, width, height, owidth, width);
    }
  }

  lemma {:induction false} RowInside(input: seq<Yuyv>, outside: int -> Yuyv, other: int -> Yuyv, y: nat, x: nat,
                                     height: nat, owidth: nat, width: nat)
    requires width > 0 && InBuffer(owidth, width, height, |input|) && y < height && x <= width
    ensures Row(input, outside, y, x, owidth, width) == Row(input, other, y, x, owidth, width)
  {
    hide Address;
    if x == 0 {
    } else {
      RowInside(input, outside, other, y, x - 1, height, owidth, width);
    }
  }

  /** The body of the loops: the column, and which chroma it has, after one that had the
      chroma lastCc. */
  method Choose(x: nat, xscale: nat, lastCc: nat, ghost y: nat, ghost owidth: nat, ghost width: nat)
    returns (rx: int, cc: nat)
    requires width > 0 && xscale == XScale(owidth, width) && lastCc == 1 - Number(y, x, width) % 2
    ensures rx == Column(y, x, owidth, width) && cc == Number(y, x, width) % 2
  {
    hide Number, XScale;
    rx := x * xscale / 0x1_0000;
    cc := if (2 * rx + 1) % 4 == 3 then 1 else 0;
    if lastCc == cc {
      rx := rx - 1;
      cc := 1 - cc;
    }
  }

  /** The inner loop of resize, for one row. */
  method ResizeRow(input: array<Yuyv>, output: array<Yuyv>, start: nat, y: nat,
                   outside: int -> Yuyv, owidth: nat, width: nat, xscale: nat, lastCc0: nat)
    returns (lastCc: nat)
    requires width > 0 && xscale == XScale(owidth, width) && input != output
    requires start == Number(y, 0, width) && start + width <= output.Length && lastCc0 == 1 - start % 2
    modifies output
    ensures output[..start + width] == old(output[..start]) + Row(input[..], outside, y, width, owidth, width)
    ensures forall m :: start + width <= m < output.Length ==> output[m] == old(output[m])
    ensures lastCc == 1 - (start + width) % 2
  {
    hide *;
    ghost var i := input[..];
    lastCc := lastCc0;
    var o := start;
    RowNext(i, outside, y, 0, owidth, width);
    for x := 0 to width
      invariant o == start + x && lastCc == 1 - o % 2
      invariant output[..start] == old(output[..start])
      invariant forall m :: o <= m < output.Length ==> output[m] == old(output[m])
      invariant output[start..o] == Row(i, outside, y, x, owidth, width)
    {
      NumberNext(y, x, width);
      RowNext(i, outside, y, x, owidth, width);
      var rx, cc := Choose(x, xscale, lastCc, y, owidth, width);
      AddressOf(y, x, owidth, width);
      output[o] := Pixel(input[..], outside, Addresse(rx, y, owidth));
      assert output[start..o + 1] == output[start..o] + [output[o]];
      o := o + 1;
      lastCc := cc;
    }
    assert output[..o] == output[..start] + output[start..o];
  }

  /** The loops of resize. */
  method ResizeRows(input: array<Yuyv>, output: array<Yuyv>, outside: int -> Yuyv,
                    owidth: nat, width: nat, height: nat)
    requires width > 0 && Number(height, 0, width) <= output.Length && input != output
    modifies output
    ensures output[..Number(height, 0, width)] == Picture(input[..], outside, height, owidth, width)
    ensures forall m :: Number(height, 0, width) <= m < output.Length ==> output[m] == old(output[m])
  {
    hide *;
    ghost var i, n := input[..], Number(height, 0, width);
    var xscale := XScale(owidth, width);
    var lastCc, o := 1, 0;
    NumberNext(0, 0, width);
    RowNext(i, outside, 0, 0, owidth, width);
    for y := 0 to height
      invariant o == Number(y, 0, width) <= n && lastCc == 1 - o % 2
      invariant output[..o] == Picture(i, outside, y, owidth, width)
      invariant forall m :: n <= m < output.Length ==> output[m] == old(output[m])
    {
      RowNext(i, outside, y, 0, owidth, width);
      NumberNext(y, 0, width);
      FitsRow(y, height, width);
      lastCc := ResizeRow(input, output, o, y, outside, owidth, width, xscale, lastCc);
      o := o + width;
    }
  }

  /** resize, whatever memory holds around its input. */
  method Resize(input: array<Yuyv>, output: array<Yuyv>, outside: int -> Yuyv, owidth: nat, width: nat, height: nat)
    returns (r: int)
    requires Number(height, 0, width) <= output.Length && input != output
    modifies output
    ensures width == 0 || height == 0 ==> r == -1 && output[..] == old(output[..])
    ensures width > 0 && height > 0 ==>
              && r == 0 && output[..Number(height, 0, width)] == Picture(input[..], outside, height, owidth, width)
              && output[Number(height, 0, width)..] == old(output[Number(height, 0, width)..])
  {
    hide *;
    if width == 0 || height == 0 {
      return -1;
    }
    ResizeRows(input, output, outside, owidth, width, height);
    r := 0;
  }

  lemma FitsRow(y: nat, height: nat, width: nat)
    requires y < height
    ensures Number(y, 0, width) + width <= Number(height, 0, width)
  {
    Less(y, height, width);
  }

  lemma AddressOf(y: nat, x: nat, owidth: nat, width: nat)
    requires width > 0
    ensures Address(y, x, owidth, width) == Addresse(Column(y, x, owidth, width), y, owidth)
  {
  }
}
