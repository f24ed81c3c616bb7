/** MD5 fed octet by octet, against sections 3.1 to 3.5 of RFC 1321. */
module Md5 {
  import opened Md5Rounds
  import opened Machine

  type octet = bv8

  const INITIAL := State(0x67452301, 0xefcdab89, 0x98badcfe, 0x10325476)

  /** Four octets as a word, low order first. */
  function Joined(b0: octet, b1: octet, b2: octet, b3: octet): word {
    (b0 as word) | ((b1 as word) << 8) | ((b2 as word) << 16) | ((b3 as word) << 24)
  }

  /** A word as four octets, low order first. */
  function Split(w: word): (s: seq<octet>)
    ensures |s| == 4
  {
    [(w & 0xff) as octet, ((w >> 8) & 0xff) as octet, ((w >> 16) & 0xff) as octet, ((w >> 24) & 0xff) as octet]
  }

  /** (w >> 8 k) & 0xff */
  function SplitAt(w: word, k: nat): octet
    requires k < 4
  {
    Split(w)[k]
  }

  lemma UnionNumber(b0: octet, b1: octet, b2: octet, b3: octet)
    ensures ((b0 as word) | ((b1 as word) << 8) | ((b2 as word) << 16) | ((b3 as word) << 24)) as int ==
            b0 as int + 0x100 * (b1 as int) + 0x1_0000 * (b2 as int) + 0x100_0000 * (b3 as int)
  {
  }

  lemma JoinedNumber(b0: octet, b1: octet, b2: octet, b3: octet)
    ensures Joined(b0, b1, b2, b3) as int ==
            b0 as int + 0x100 * (b1 as int) + 0x1_0000 * (b2 as int) + 0x100_0000 * (b3 as int)
  {
    UnionNumber(b0, b1, b2, b3);
    JoinedIs(b0, b1, b2, b3);
    hide Joined;
  }

  lemma JoinedIs(b0: octet, b1: octet, b2: octet, b3: octet)
    ensures Joined(b0, b1, b2, b3) ==
            (b0 as word) | ((b1 as word) << 8) | ((b2 as word) << 16) | ((b3 as word) << 24)
  {
  }

  lemma SplitJoined(w: word)
    ensures var s := Split(w); Joined(s[0], s[1], s[2], s[3]) == w
  {
  }

  /** The octets of a word are the digits of its number in base 256, the lowest first. */
  lemma SplitDigits(w: word)
    ensures var s, v := Split(w), w as int;
            && s[0] as int == v % 0x100 && s[1] as int == v / 0x100 % 0x100
            && s[2] as int == v / 0x1_0000 % 0x100 && s[3] as int == v / 0x100_0000 % 0x100
  {
    var s := Split(w);
    SplitJoined(w);
    JoinedNumber(s[0], s[1], s[2], s[3]);
    hide Split, Joined;
    Digits4(s[0] as int, s[1] as int, s[2] as int, s[3] as int, w as int);
  }

  lemma Digits4(a: int, b: int, c: int, d: int, v: int)
    requires 0 <= a < 0x100 && 0 <= b < 0x100 && 0 <= c < 0x100 && 0 <= d < 0x100
    requires v == a + 0x100 * b + 0x1_0000 * c + 0x100_0000 * d
    ensures v % 0x100 == a && v / 0x100 % 0x100 == b && v / 0x1_0000 % 0x100 == c && v / 0x100_0000 % 0x100 == d
  {
    assert v / 0x100 == b + 0x100 * c + 0x1_0000 * d;
    assert v / 0x1_0000 == c + 0x100 * d;
  }

  /** Every number below 2^32 is that of a word. */
  lemma WordOfNumber(v: int)
    requires 0 <= v < TWO32
    ensures v as word as int == v
  {
    var a, b, c, d := v % 0x100, v / 0x100 % 0x100, v / 0x1_0000 % 0x100, v / 0x100_0000;
    NumberDigits(v);
    var w := Joined(a as octet, b as octet, c as octet, d as octet);
    OctetOfNumber(a);
    OctetOfNumber(b);
    OctetOfNumber(c);
    OctetOfNumber(d);
    JoinedNumber(a as octet, b as octet, c as octet, d as octet);
    hide Joined;
    assert w as int == v;
    NumberOfWord(w);
  }

  lemma NumberDigits(v: int)
    requires 0 <= v < TWO32
    ensures v == v % 0x100 + 0x100 * (v / 0x100 % 0x100) + 0x1_0000 * (v / 0x1_0000 % 0x100)
                 + 0x100_0000 * (v / 0x100_0000)
    ensures v / 0x100_0000 < 0x100
  {
    var q := v / 0x100;
    var r := q / 0x100;
    assert v / 0x1_0000 == r && v / 0x100_0000 == r / 0x100;
  }

  lemma OctetOfNumber(v: int)
    requires 0 <= v < 0x100
    ensures v as octet as int == v
  {
    HalfOfNumber(v / 0x10);
    HalfOfNumber(v % 0x10);
    OctetOfHalves(v, (v / 0x10) as bv4, (v % 0x10) as bv4);
  }

  lemma OctetOfHalves(v: int, high: bv4, low: bv4)
    requires v == 0x10 * (high as int) + low as int
    ensures 0 <= v < 0x100 && v as octet as int == v
  {
    HalvesNumber(high, low);
    NumberOfOctet(((high as octet) << 4) | (low as octet));
  }

  lemma HalfOfNumber(v: int)
    requires 0 <= v < 0x10
    ensures v as bv4 as int == v
  {
  }

  lemma HalvesNumber(high: bv4, low: bv4)
    ensures (((high as octet) << 4) | (low as octet)) as int == 0x10 * (high as int) + low as int
  {
  }

  lemma NumberOfOctet(x: octet)
    ensures x as int as octet == x
  {
  }

  lemma NumberOfWord(w: word)
    ensures w as int as word == w
  {
  }

  /** Octet i of a message followed by zeros. */
  function OctetAt(m: seq<octet>, i: nat): octet {
    if i < |m| then m[i] else 0
  }

  /** Word j of a message followed by zeros. */
  function WordAt(m: seq<octet>, j: nat): word {
    Joined(OctetAt(m, 4 * j), OctetAt(m, 4 * j + 1), OctetAt(m, 4 * j + 2), OctetAt(m, 4 * j + 3))
  }

  function WordsOf(m: seq<octet>): Words {
    seq(16, j requires 0 <= j < 16 => WordAt(m, j))
  }

  /** The chaining variables after the first n blocks of a message. */
  function Chain(m: seq<octet>, n: nat): State
    requires 64 * n <= |m|
  {
    if n == 0 then INITIAL else Compress(Chain(m, n - 1), WordsOf(m[64 * n - 64..64 * n]))
  }

  lemma {:induction false} ChainPrefix(m: seq<octet>, t: seq<octet>, n: nat)
    requires 64 * n <= |m|
    ensures Chain(m + t, n) == Chain(m, n)
  {
    hide Compress, WordsOf;
    if n == 0 {
    } else {
      ChainPrefix(m, t, n - 1);
      assert (m + t)[64 * n - 64..64 * n] == m[64 * n - 64..64 * n];
    }
  }

  /** The octets not yet in a complete block. */
  function Residue(m: seq<octet>): (r: seq<octet>)
    ensures |r| == |m| % 64
  {
    m[|m| - |m| % 64..]
  }

  /** The length of a message in bits, as two words. */
  function LowBits(m: seq<octet>): nat { 8 * |m| % TWO32 }

  function HighBits(m: seq<octet>): nat { 8 * |m| / TWO32 % TWO32 }

  lemma BitsCarry(n: nat, low: nat, high: nat)
    requires low == 8 * n % TWO32 && high == 8 * n / TWO32 % TWO32
    ensures var low' := (low + 8) % TWO32;
            && low' == 8 * (n + 1) % TWO32
            && (if low > low' then (high + 1) % TWO32 else high) == 8 * (n + 1) / TWO32 % TWO32
  {
    var q := 8 * n / TWO32;
    assert 8 * n == q * TWO32 + low;
    if low + 8 >= TWO32 {
      assert 8 * (n + 1) == (q + 1) * TWO32 + (low + 8 - TWO32);
    } else {
      assert 8 * (n + 1) == q * TWO32 + (low + 8);
    }
  }

  /** x << 8 k */
  function Shifted(x: octet, k: nat): word
    requires k < 4
  {
    match k
    case 0 => x as word
    case 1 => (x as word) << 8
    case 2 => (x as word) << 16
    case _ => (x as word) << 24
  }

  /** w | x << 8 k */
  function OrIn(w: word, x: octet, k: nat): word
    requires k < 4
  {
    w | Shifted(x, k)
  }

  lemma JoinedOr0(x: octet)
    ensures OrIn(Joined(0, 0, 0, 0), x, 0) == Joined(x, 0, 0, 0)
  {
  }

  lemma JoinedOr1(b0: octet, x: octet)
    ensures OrIn(Joined(b0, 0, 0, 0), x, 1) == Joined(b0, x, 0, 0)
  {
  }

  lemma JoinedOr2(b0: octet, b1: octet, x: octet)
    ensures OrIn(Joined(b0, b1, 0, 0), x, 2) == Joined(b0, b1, x, 0)
  {
  }

  lemma JoinedOr3(b0: octet, b1: octet, b2: octet, x: octet)
    ensures OrIn(Joined(b0, b1, b2, 0), x, 3) == Joined(b0, b1, b2, x)
  {
  }

  lemma OctetAppend(r: seq<octet>, x: octet, i: nat)
    ensures OctetAt(r + [x], i) == if i == |r| then x else OctetAt(r, i)
  {
  }

  /** Or'ing an octet in at its place appends it to the residue. */
  lemma WordAppend(r: seq<octet>, x: octet, j: nat)
    ensures WordAt(r + [x], j) == if j == |r| / 4 then OrIn(WordAt(r, j), x, |r| % 4) else WordAt(r, j)
  {
    OctetAppend(r, x, 4 * j);
    OctetAppend(r, x, 4 * j + 1);
    OctetAppend(r, x, 4 * j + 2);
    OctetAppend(r, x, 4 * j + 3);
    var b0, b1, b2 := OctetAt(r, 4 * j), OctetAt(r, 4 * j + 1), OctetAt(r, 4 * j + 2);
    JoinedOr0(x);
    JoinedOr1(b0, x);
    JoinedOr2(b0, b1, x);
    JoinedOr3(b0, b1, b2, x);
    hide Joined, OrIn;
  }

  lemma WordsAppend(r: seq<octet>, x: octet)
    requires |r| < 64
    ensures var k := |r| / 4; WordsOf(r + [x]) == WordsOf(r)[k := OrIn(WordsOf(r)[k], x, |r| % 4)]
  {
    hide WordAt, OrIn;
    forall j | 0 <= j < 16
      ensures WordsOf(r + [x])[j] == if j == |r| / 4 then OrIn(WordAt(r, j), x, |r| % 4) else WordAt(r, j)
    {
      WordAppend(r, x, j);
    }
  }

  lemma WordsNone()
    ensures WordsOf([]) == seq(16, _ => 0)
  {
    JoinedZero();
  }

  lemma JoinedZero()
    ensures Joined(0, 0, 0, 0) == 0
  {
  }

  lemma ResidueIs(m: seq<octet>, n: nat, r: nat)
    requires |m| == 64 * n + r && r < 64
    ensures |m| / 64 == n && |m| % 64 == r && Residue(m) == m[64 * n..]
  {
    assert |m| - r == 64 * n;
  }

  /** One more octet goes into the residue, or completes a block. */
  lemma ResidueGrows(m: seq<octet>, x: octet, n: nat, r: nat)
    requires |m| == 64 * n + r && r < 63
    ensures |m + [x]| / 64 == n && Residue(m + [x]) == Residue(m) + [x]
    ensures Chain(m + [x], n) == Chain(m, n)
  {
    hide Chain, Residue;
    ChainPrefix(m, [x], n);
    ResidueIs(m, n, r);
    ResidueIs(m + [x], n, r + 1);
  }

  lemma BlockCompletes(m: seq<octet>, x: octet, n: nat)
    requires |m| == 64 * n + 63
    ensures |m + [x]| / 64 == n + 1 && Residue(m + [x]) == []
    ensures Chain(m + [x], n + 1) == Compress(Chain(m, n), WordsOf(Residue(m) + [x]))
  {
    hide WordsOf, Compress, Residue;
    ChainPrefix(m, [x], n);
    ResidueIs(m, n, 63);
    ResidueIs(m + [x], n + 1, 0);
    assert m[64 * n..] + [x] == (m + [x])[64 * (n + 1) - 64..64 * (n + 1)];
  }

  lemma ResidueAppend(m: seq<octet>, x: octet)
    ensures if |m| % 64 == 63 then
              && (|m| + 1) / 64 == |m| / 64 + 1 && Residue(m + [x]) == []
              && Chain(m + [x], |m| / 64 + 1) == Compress(Chain(m, |m| / 64), WordsOf(Residue(m) + [x]))
            else
              && (|m| + 1) / 64 == |m| / 64 && Residue(m + [x]) == Residue(m) + [x]
              && Chain(m + [x], |m| / 64) == Chain(m, |m| / 64)
  {
    hide WordsOf, Compress, Chain, Residue;
    if |m| % 64 == 63 {
      BlockCompletes(m, x, |m| / 64);
    } else {
      ResidueGrows(m, x, |m| / 64, |m| % 64);
    }
  }

  /** A length word as four octets, low order first. */
  function OctetsOf(v: nat): seq<octet> {
    [(v % 0x100) as octet, (v / 0x100 % 0x100) as octet,
     (v / 0x1_0000 % 0x100) as octet, (v / 0x100_0000 % 0x100) as octet]
  }

  /** How many zeros follow the first octet of padding: as many as it takes to be
      eight octets short of a whole block (section 3.1). */
  function PadZeros(n: nat): (z: nat)
    ensures z < 64
    ensures (n + 1 + z) % 64 == 56
  {
    (119 - n % 64) % 64
  }

  /** It is the least such number. */
  lemma PadZerosLeast(n: nat, k: nat)
    requires k <= PadZeros(n)
    ensures (n + 1 + k) % 64 == 56 <==> k == PadZeros(n)
  {
    var z := PadZeros(n);
    if (n + 1 + k) % 64 == 56 {
      assert (z - k) % 64 == 0;
    }
  }

  /** A message padded, with its length appended (sections 3.1 and 3.2). */
  function Padded(m: seq<octet>): seq<octet> {
    m + [0x80] + seq(PadZeros(|m|), _ => 0) + OctetsOf(LowBits(m)) + OctetsOf(HighBits(m))
  }

  /** It is a whole number of blocks. */
  lemma PaddedWhole(m: seq<octet>)
    ensures |Padded(m)| % 64 == 0
  {
    hide OctetsOf, LowBits, HighBits, PadZeros;
    assert |Padded(m)| == |m| + 1 + PadZeros(|m|) + |OctetsOf(LowBits(m))| + |OctetsOf(HighBits(m))|;
    OctetsOfLength(LowBits(m));
    OctetsOfLength(HighBits(m));
  }

  lemma OctetsOfLength(v: nat)
    ensures |OctetsOf(v)| == 4
  {
  }

  /** All the blocks of the padded message, from the initial state (sections 3.3
      and 3.4). */
  function FinalState(m: seq<octet>): State {
    Chain(Padded(m), |Padded(m)| / 64)
  }

  /** The chaining variables as octets (section 3.5). */
  function Output(st: State): (s: seq<octet>)
    ensures |s| == 16
  {
    Split(st.a) + Split(st.b) + Split(st.c) + Split(st.d)
  }

  function Digest(m: seq<octet>): seq<octet> {
    Output(FinalState(m))
  }

  /** struct md5_ctx; message is all that has been fed to it. */
  class Md5Ctx {
    const buf: array<word>
    var bits0: nat
    var bits1: nat
    const inw: array<word>
    var b: nat
    ghost var message: seq<octet>

    ghost predicate Valid()
      reads this, buf, inw
    {
      && buf.Length == 4 && inw.Length == 16 && buf != inw
      && b == |message| % 64
      && StateOf(buf[..]) == Chain(message, |message| / 64)
      && inw[..] == WordsOf(Residue(message))
      && bits0 == LowBits(message) && bits1 == HighBits(message)
    }

    constructor ()
      ensures fresh(buf) && fresh(inw) && buf.Length == 4 && inw.Length == 16 && buf != inw
    {
      buf := new word[4];
      inw := new word[16];
    }

    /** MD5_start */
    method Start()
      requires buf.Length == 4 && inw.Length == 16 && buf != inw
      modifies this`bits0, this`bits1, this`b, this`message, buf, inw
      ensures Valid() && message == []
    {
      buf[0], buf[1], buf[2], buf[3] := 0x67452301, 0xefcdab89, 0x98badcfe, 0x10325476;
      bits0, bits1 := 0, 0;
      Clear();
      b, message := 0, [];
      WordsNone();
    }

    method Clear()
      requires inw.Length == 16
      modifies inw
      ensures inw[..] == seq(16, _ => 0)
    {
      for i := 0 to 16
        invariant forall j :: 0 <= j < i ==> inw[j] == 0
      {
        inw[i] := 0;
      }
    }

    /** The part of MD5_feed that deals with the block. */
    method FeedBlock(inb: octet)
      requires Valid()
      modifies this`b, buf, inw
      ensures b == (|message| + 1) % 64
      ensures StateOf(buf[..]) == Chain(message + [inb], (|message| + 1) / 64)
      ensures inw[..] == WordsOf(Residue(message + [inb]))
    {
      hide Compress, OrIn, WordsOf, Chain, StateOf, Residue;
      WordsAppend(Residue(message), inb);
      ResidueAppend(message, inb);
      inw[b / 4] := OrIn(inw[b / 4], inb, b % 4);
      b := b + 1;
      if b >= 64 {
        Transform(buf, inw[..]);
        b := 0;
        Clear();
        WordsNone();
      }
    }

    /** MD5_feed */
    method Feed(inb: octet)
      requires Valid()
      modifies this`bits0, this`bits1, this`b, this`message, buf, inw
      ensures Valid() && message == old(message) + [inb]
    {
      hide WordsOf, Chain, StateOf, Residue;
      FeedBlock(inb);
      BitsCarry(|message|, bits0, bits1);
      var temp := bits0;
      bits0 := (bits0 + 8) % TWO32;
      if temp > bits0 {
        bits1 := (bits1 + 1) % TWO32;
      }
      message := message + [inb];
    }

    /** Four octets of a length word. */
    method FeedWord(v: nat)
      requires Valid()
      modifies this`bits0, this`bits1, this`b, this`message, buf, inw
      ensures Valid() && message == old(message) + OctetsOf(v)
    {
      hide Valid;
      Feed((v % 0x100) as octet);
      Feed((v / 0x100 % 0x100) as octet);
      Feed((v / 0x1_0000 % 0x100) as octet);
      Feed((v / 0x100_0000 % 0x100) as octet);
    }

    /** The first octet of padding, and the zeros. */
    method FeedPadding()
      requires Valid()
      modifies this`bits0, this`bits1, this`b, this`message, buf, inw
      ensures Valid() && message == old(message) + [0x80] + seq(PadZeros(|old(message)|), _ => 0)
    {
      hide *;
      ghost var m, z := message, PadZeros(|message|);
      Feed(0x80);
      ghost var k := 0;
      BIs();
      PadZerosLeast(|m|, 0);
      while b != 56
        invariant Valid() && k <= z && message == m + [0x80] + seq(k, _ => 0)
        invariant b == 56 <==> k == z
        decreases z - k
      {
        Feed(0);
        k := k + 1;
        assert seq(k, _ => 0 as octet) == seq(k - 1, _ => 0 as octet) + [0];
        BIs();
        PadZerosLeast(|m|, k);
      }
    }

    lemma BIs()
      requires Valid()
      ensures b == |message| % 64
    {
    }

    /** MD5_stop: the digest of all that was fed; the variables keep it. */
    method Stop(digest: array<octet>)
      requires Valid() && digest.Length == 16
      modifies this`bits0, this`bits1, this`b, this`message, buf, inw, digest
      ensures digest[..] == Digest(old(message))
      ensures buf.Length == 4 && StateOf(buf[..]) == FinalState(old(message))
      ensures Valid()
    {
      hide WordsOf, Chain, LowBits, HighBits, OctetsOf;
      ghost var m, d := message, digest[..];
      var low, high := bits0, bits1;
      FeedPadding();
      FeedWord(low);
      FeedWord(high);
      assert message == Padded(m);
      WriteState(buf, digest, 0);
      assert Put(d, 0, Output(FinalState(m))) == Output(FinalState(m));
    }
  }

  /** a with s written over it from index at. */
  function Put(a: seq<octet>, at: nat, s: seq<octet>): (p: seq<octet>)
    requires at + |s| <= |a|
    ensures |p| == |a|
  {
    a[..at] + s + a[at + |s|..]
  }

  lemma PutNone(a: seq<octet>, at: nat)
    requires at <= |a|
    ensures Put(a, at, []) == a
  {
  }

  /** Writing in two pieces is writing at once. */
  lemma PutPut(a: seq<octet>, at: nat, s: seq<octet>, t: seq<octet>)
    requires at + |s| + |t| <= |a|
    ensures Put(Put(a, at, s), at + |s|, t) == Put(a, at, s + t)
  {
  }

  /** One word written out. */
  method WriteWord(w: word, area: array<octet>, p: nat)
    requires p + 4 <= area.Length
    modifies area
    ensures area[..] == Put(old(area[..]), p, Split(w))
  {
    hide Split;
    area[p] := SplitAt(w, 0);
    area[p + 1] := SplitAt(w, 1);
    area[p + 2] := SplitAt(w, 2);
    area[p + 3] := SplitAt(w, 3);
    SplitIs(w);
  }

  /** The loops that write the chaining variables out, at the end of MD5_stop and in
      md5stream_fill. */
  method WriteState(buf: array<word>, area: array<octet>, at: nat)
    requires buf.Length == 4 && at + 16 <= area.Length
    modifies area
    ensures area[..] == Put(old(area[..]), at, Output(StateOf(buf[..])))
  {
    hide Split, Put;
    PutNone(area[..], at);
    for i := 0 to 4
      invariant |Spread(buf[..i])| == 4 * i
      invariant area[..] == Put(old(area[..]), at, Spread(buf[..i]))
    {
      PutPut(old(area[..]), at, Spread(buf[..i]), Split(buf[i]));
      WriteWord(buf[i], area, at + 4 * i);
      assert buf[..i + 1][..i] == buf[..i];
    }
    SpreadFour(buf[0], buf[1], buf[2], buf[3]);
    assert buf[..] == buf[..4] == [buf[0], buf[1], buf[2], buf[3]];
  }

  function Spread(ws: seq<word>): seq<octet> {
    if ws == [] then [] else Spread(ws[..|ws| - 1]) + Split(ws[|ws| - 1])
  }

  lemma SplitIs(w: word)
    ensures Split(w) == [SplitAt(w, 0), SplitAt(w, 1), SplitAt(w, 2), SplitAt(w, 3)]
  {
  }

  lemma SpreadFour(a: word, b: word, c: word, d: word)
    ensures Spread([a, b, c, d]) == Split(a) + Split(b) + Split(c) + Split(d)
  {
    hide Split;
    assert [a, b, c, d][..3] == [a, b, c] && [a, b, c][..2] == [a, b] && [a, b][..1] == [a];
    assert Spread([a]) == Spread([]) + Split(a) == Split(a);
    assert Spread([a, b]) == Split(a) + Split(b);
    assert Spread([a, b, c]) == Split(a) + Split(b) + Split(c);
  }
}
