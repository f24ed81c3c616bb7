/** do_tests of urumt: a ring of pages, each filled, and verified just before it is
    filled again. */
module Urumt {
  import opened Md5
  import opened Md5Streams
  import opened TryMem
  import opened Stats
  import opened Machine
  import Bits

  /** What prepare_area puts in a page: the stream of the page number, the pass number,
      and what all pages of the run have in common. */
  function Content(page: nat, pass: nat, key: seq<octet>, w: nat): (s: seq<octet>)
    ensures |s| == 16 * w
  {
    Stream(OctetsOf(page) + OctetsOf(pass) + key, 0, w)
  }

  lemma OctetsNumber(v: nat)
    requires v < TWO32
    ensures var s := OctetsOf(v);
            v == s[0] as int + 0x100 * (s[1] as int) + 0x1_0000 * (s[2] as int) + 0x100_0000 * (s[3] as int)
  {
    NumberDigits(v);
    OctetOfNumber(v % 0x100);
    OctetOfNumber(v / 0x100 % 0x100);
    OctetOfNumber(v / 0x1_0000 % 0x100);
    OctetOfNumber(v / 0x100_0000);
    assert v / 0x100_0000 % 0x100 == v / 0x100_0000;
  }

  /** Another page, or another pass, has another seed. */
  lemma SeedsDiffer(page: nat, pass: nat, page': nat, pass': nat, key: seq<octet>)
    requires page < TWO32 && pass < TWO32 && page' < TWO32 && pass' < TWO32
    ensures OctetsOf(page) + OctetsOf(pass) + key == OctetsOf(page') + OctetsOf(pass') + key <==>
              page == page' && pass == pass'
  {
    var s, s' := OctetsOf(page) + OctetsOf(pass) + key, OctetsOf(page') + OctetsOf(pass') + key;
    OctetsNumber(page);
    OctetsNumber(pass);
    OctetsNumber(page');
    OctetsNumber(pass');
    OctetsOfLength(page);
    OctetsOfLength(pass);
    OctetsOfLength(page');
    OctetsOfLength(pass');
    hide OctetsOf;
    if s == s' {
      assert s[..4] == OctetsOf(page) && s[4..8] == OctetsOf(pass);
      assert s'[..4] == OctetsOf(page') && s'[4..8] == OctetsOf(pass');
    }
  }

  /** Where a page starts in the arena, which is n pages long. */
  function Base(page: nat, w: nat): nat {
    PageAt(0, page, 16 * w)
  }

  lemma BaseIs(page: nat, w: nat)
    ensures Base(page, w) == page * (16 * w)
  {
    PageAtIs(0, page, 16 * w);
  }

  /** The page and the pass number of the fill number u of a run. */
  function FillPage(u: nat, n: nat): nat
    requires n > 0
  {
    u % n
  }

  function FillPass(u: nat): nat {
    u % TWO32
  }

  /** Page numbers go up by one, and around. */
  lemma PageNext(u: nat, n: nat)
    requires n > 0
    ensures FillPage(u + 1, n) == (FillPage(u, n) + 1) % n
    ensures FillPage(u + 1, n) == if FillPage(u, n) + 1 < n then FillPage(u, n) + 1 else 0
  {
    var q, r := u / n, u % n;
    assert u == q * n + r;
    if r + 1 < n {
      Bits.DivModUnique(u + 1, n, q, r + 1);
    } else {
      assert (q + 1) * n == q * n + n;
      Bits.DivModUnique(u + 1, n, q + 1, 0);
    }
    Bits.DivModUnique(r + 1, n, if r + 1 < n then 0 else 1, if r + 1 < n then r + 1 else 0);
  }

  lemma {:induction false} PageAhead(u: nat, n: nat, d: nat)
    requires 0 < n && d <= n
    ensures var p := FillPage(u, n); FillPage(u + d, n) == if p + d < n then p + d else p + d - n
  {
    hide FillPage;
    if d > 0 {
      PageAhead(u, n, d - 1);
      PageNext(u + d - 1, n);
      PageBound(u, n);
    } else {
      PageBound(u, n);
    }
  }

  lemma PageBound(u: nat, n: nat)
    requires n > 0
    ensures FillPage(u, n) < n
  {
  }

  /** The schedule: what fill number c put in its page is not filled over in the n - 1
      fills that follow, and the next one after them is the same page again. */
  lemma Schedule(c: nat, n: nat)
    requires n > 0
    ensures forall u :: c < u < c + n ==> FillPage(u, n) != FillPage(c, n)
    ensures FillPage(c + n, n) == FillPage(c, n)
  {
    hide FillPage;
    PageAhead(c, n, n);
    PageBound(c, n);
    forall u | c < u < c + n ensures FillPage(u, n) != FillPage(c, n) {
      PageAhead(c, n, u - c);
    }
  }

  /** Page u of the last n fills still holds what it was filled with. */
  predicate Kept(a: seq<octet>, u: nat, n: nat, w: nat, key: seq<octet>)
    requires n > 0
  {
    var b := Base(FillPage(u, n), w);
    b + 16 * w <= |a| && a[b..b + 16 * w] == Content(FillPage(u, n), FillPass(u), key, w)
  }

  /** So do all pages: memory without faults, after t fills. */
  predicate Faithful(a: seq<octet>, t: nat, n: nat, w: nat, key: seq<octet>)
    requires n > 0
  {
    forall u: nat :: t - n <= u < t ==> Kept(a, u, n, w, key)
  }

  lemma PagesDisjoint(p: nat, q: nat, w: nat)
    requires p != q
    ensures Base(p, w) + 16 * w <= Base(q, w) || Base(q, w) + 16 * w <= Base(p, w)
  {
    if p < q { PageAtMono(0, p + 1, q, 16 * w); } else { PageAtMono(0, q + 1, p, 16 * w); }
  }

  lemma PageInside(p: nat, n: nat, w: nat)
    requires p < n
    ensures Base(p, w) + 16 * w <= Base(n, w)
  {
    PageAtMono(0, p + 1, n, 16 * w);
  }

  /** Filling a page leaves the others, so memory stays faithful. */
  lemma FillKeeps(a: seq<octet>, t: nat, n: nat, w: nat, key: seq<octet>)
    requires n > 0 && Base(FillPage(t, n), w) + 16 * w <= |a| && Faithful(a, t, n, w, key)
    ensures var b := Put(a, Base(FillPage(t, n), w), Content(FillPage(t, n), FillPass(t), key, w));
            Faithful(b, t + 1, n, w, key)
  {
    hide FillPage, Base, Content, Put;
    var s := Content(FillPage(t, n), FillPass(t), key, w);
    var b := Put(a, Base(FillPage(t, n), w), s);
    PutHere(a, Base(FillPage(t, n), w), s);
    forall u: nat | t + 1 - n <= u < t + 1 ensures Kept(b, u, n, w, key) {
      if u < t {
        assert Kept(a, u, n, w, key);
        Schedule(u, n);
        PagesDisjoint(FillPage(u, n), FillPage(t, n), w);
        PutElsewhere(a, Base(FillPage(t, n), w), s, Base(FillPage(u, n), w));
      }
    }
  }

  /** A bad bit as it is reported: the page of physical memory, the octet in it, the
      bit, and the value it should have. */
  datatype BadBit = BadBit(page: int, byte: nat, bit: nat, plus: bool)

  function BadInByte(x: octet, y: octet, page: int, byte: nat, b: nat): seq<BadBit> {
    if b == 0 then []
    else
      BadInByte(x, y, page, byte, b - 1) +
      if Bit(x, b - 1) != Bit(y, b - 1) then [BadBit(page, byte, b - 1, Bit(x, b - 1))] else []
  }

  /** The bad bits of the first k octets of a page that should be x and is y. */
  function BadBits(x: seq<octet>, y: seq<octet>, page: int, k: nat): seq<BadBit>
    requires k <= |x| && k <= |y|
  {
    if k == 0 then [] else BadBits(x, y, page, k - 1) + BadInByte(x[k - 1], y[k - 1], page, k - 1, 8)
  }

  /** Where two sequences of octets differ, in the first k octets, and in the first b
      bits of the next one. */
  function Differing(x: seq<octet>, y: seq<octet>, k: nat, b: nat): set<(nat, nat)>
    requires |x| == |y|
  {
    set i: nat, j: nat | i < |x| && j < 8 && (i < k || (i == k && j < b)) && Bit(x[i], j) != Bit(y[i], j) :: (i, j)
  }

  lemma DifferingAt(x: seq<octet>, y: seq<octet>, k: nat, b: nat, i: nat, j: nat)
    requires |x| == |y|
    ensures (i, j) in Differing(x, y, k, b) <==>
              i < |x| && j < 8 && (i < k || (i == k && j < b)) && Bit(x[i], j) != Bit(y[i], j)
  {
    hide Bit;
  }

  lemma DifferingNext(x: seq<octet>, y: seq<octet>, k: nat, b: nat)
    requires |x| == |y| && k < |x| && 0 < b <= 8
    ensures |Differing(x, y, k, b)| ==
            |Differing(x, y, k, b - 1)| + if Bit(x[k], b - 1) != Bit(y[k], b - 1) then 1 else 0
  {
    hide *;
    var less, more := Differing(x, y, k, b - 1), Differing(x, y, k, b);
    forall p: (nat, nat)
      ensures p in more <==> p in less || (p == (k, b - 1) && Bit(x[k], b - 1) != Bit(y[k], b - 1))
      ensures p in less ==> p != (k, b - 1)
    {
      DifferingAt(x, y, k, b, p.0, p.1);
      DifferingAt(x, y, k, b - 1, p.0, p.1);
    }
    if Bit(x[k], b - 1) != Bit(y[k], b - 1) {
      assert more == less + {(k, b - 1)};
    } else {
      assert more == less;
    }
  }

  lemma {:induction false} CountInByte(x: seq<octet>, y: seq<octet>, page: int, k: nat, b: nat)
    requires |x| == |y| && k < |x| && b <= 8
    ensures |Differing(x, y, k, b)| == |Differing(x, y, k, 0)| + |BadInByte(x[k], y[k], page, k, b)|
  {
    hide Bit, Differing;
    if b == 0 {
    } else {
      CountInByte(x, y, page, k, b - 1);
      DifferingNext(x, y, k, b);
    }
  }

  /** The number of bad bits is the Hamming distance. */
  lemma {:induction false} CountIsDistance(x: seq<octet>, y: seq<octet>, page: int, k: nat)
    requires |x| == |y| && k <= |x|
    ensures |BadBits(x, y, page, k)| == |Differing(x, y, k, 0)|
  {
    hide Bit, BadInByte;
    if k == 0 {
      assert Differing(x, y, 0, 0) == {};
    } else {
      CountIsDistance(x, y, page, k - 1);
      CountInByte(x, y, page, k - 1, 8);
      assert Differing(x, y, k, 0) == Differing(x, y, k - 1, 8);
    }
  }

  lemma {:induction false} BadInByteExact(x: octet, y: octet, page: int, byte: nat, b: nat, r: BadBit)
    ensures r in BadInByte(x, y, page, byte, b) <==>
            r.page == page && r.byte == byte && r.bit < b && Bit(x, r.bit) != Bit(y, r.bit) && r.plus == Bit(x, r.bit)
  {
    hide Bit;
    if b == 0 {
    } else {
      BadInByteExact(x, y, page, byte, b - 1, r);
    }
  }

  /** What is reported is exactly the bits that differ. */
  lemma {:induction false} BadBitsExact(x: seq<octet>, y: seq<octet>, page: int, k: nat, r: BadBit)
    requires k <= |x| && k <= |y|
    ensures r in BadBits(x, y, page, k) <==>
            && r.page == page && r.byte < k && r.bit < 8
            && Bit(x[r.byte], r.bit) != Bit(y[r.byte], r.bit) && r.plus == Bit(x[r.byte], r.bit)
  {
    hide Bit, BadInByte;
    if k == 0 {
    } else {
      BadBitsExact(x, y, page, k - 1, r);
      BadInByteExact(x[k - 1], y[k - 1], page, k - 1, 8, r);
    }
  }

  /** Nothing is reported if and only if the page is as it should be. */
  lemma SilentExactly(x: seq<octet>, y: seq<octet>, page: int)
    requires |x| == |y|
    ensures BadBits(x, y, page, |x|) == [] <==> x == y
  {
    hide Bit, BadBits;
    var all := BadBits(x, y, page, |x|);
    if all == [] {
      forall i | 0 <= i < |x| ensures x[i] == y[i] {
        forall b | 0 <= b < 8 ensures Bit(x[i], b) == Bit(y[i], b) {
          BadBitsExact(x, y, page, |x|, BadBit(page, i, b, Bit(x[i], b)));
        }
        BitsDetermine(x[i], y[i]);
      }
    } else {
      BadBitsExact(x, y, page, |x|, all[0]);
    }
  }

  /** The calls of record_incr for a verified page: none if its place in memory is not
      known. */
  function PageRun(page: int, bad: nat): seq<Increment> {
    if page < 0 then []
    else if bad > 0 then [Increment(2 * page + 1, bad), Increment(2 * page, 1)]
    else [Increment(2 * page, 1)]
  }

  /** The file once a verified page has been recorded. */
  function Recorded(file: seq<byte>, page: int, bad: nat): seq<byte> {
    if page < 0 then file
    else Incremented(if bad > 0 then Incremented(file, 2 * page + 1, bad) else file, 2 * page, 1)
  }

  /** In terms of a run of record_incr. */
  lemma RecordedRun(file: seq<byte>, page: int, bad: nat)
    ensures Recorded(file, page, bad) == After(file, PageRun(page, bad))
  {
    hide Incremented;
    var run := PageRun(page, bad);
    if page >= 0 {
      assert run[..|run| - 1] == if bad > 0 then [Increment(2 * page + 1, bad)] else [];
      AfterNone(file);
      if bad > 0 { AfterOne(file, Increment(2 * page + 1, bad)); }
    }
  }

  lemma AfterNone(file: seq<byte>)
    ensures After(file, []) == file
  {
  }

  lemma AfterOne(file: seq<byte>, i: Increment)
    ensures After(file, [i]) == Incremented(file, i.slot, i.inc)
  {
    assert [i][..0] == [];
  }

  /** Memory a becomes b by filling a page. */
  predicate Filled(a: seq<octet>, b: seq<octet>, page: nat, pass: nat, key: seq<octet>, w: nat) {
    Base(page, w) + 16 * w <= |a| && b == Put(a, Base(page, w), Content(page, pass, key, w))
  }

  /** These are the bad bits of a page. */
  predicate Verified(a: seq<octet>, page: nat, pass: nat, key: seq<octet>, w: nat, place: int, bad: seq<BadBit>) {
    var b := Base(page, w);
    b + 16 * w <= |a| && bad == BadBits(Content(page, pass, key, w), a[b..b + 16 * w], place, 16 * w)
  }

  /** Goes on, or ends with one of the calls of fatal_error. */
  datatype Verdict = Running | TooManyBadBits | StatisticsBroken

  lemma ContentIs(page: nat, pass: nat, key: seq<octet>, w: nat)
    ensures Content(page, pass, key, w) == Stream(OctetsOf(page) + OctetsOf(pass) + key, 0, w)
  {
  }

  /** prepare_area; key is what pid and magic make in memory. */
  method PrepareArea(page: nat, pass: nat, key: seq<octet>, w: nat, dst: array<octet>, at: nat, stream: Md5Stream)
    requires stream.Shape() && dst !in stream.repr && at + 16 * w <= dst.Length
    modifies dst, stream.repr
    ensures dst[..] == Put(old(dst[..]), at, Content(page, pass, key, w))
  {
    hide *;
    stream.Init();
    stream.Seed(OctetsOf(page) + OctetsOf(pass) + key);
    StreamFresh(stream, OctetsOf(page) + OctetsOf(pass) + key);
    WholePage(w);
    ContentIs(page, pass, key, w);
    stream.Fill(dst, at, 16 * w);
  }

  lemma StreamFresh(stream: Md5Stream, seed: seq<octet>)
    requires stream.Valid() && !stream.stopped && stream.seed == [] + seed
    ensures stream.blocks == 0 && stream.seed == seed
  {
  }

  /** The memcmp of do_tests and the loops after it: x is what the page, y, should be. */
  method Compare(buf: array<octet>, arena: array<octet>, at: nat, page: int, ghost x: seq<octet>, ghost a: seq<octet>)
    returns (bad: seq<BadBit>)
    requires at + |x| <= |a| && x == buf[..] && a == arena[..]
    ensures bad == BadBits(x, a[at..at + |x|], page, |x|)
  {
    hide *;
    ghost var y := a[at..at + |x|];
    assert y == arena[at..at + buf.Length];
    bad := [];
    BadBitsNone(x, y, page);
    SilentExactly(x, y, page);
    if buf[..] != arena[at..at + buf.Length] {
      for byte := 0 to buf.Length
        invariant bad == BadBits(x, y, page, byte)
      {
        BadBitsNext(x, y, page, byte);
        var diff := buf[byte] ^ arena[at + byte];
        XorZero(x[byte], y[byte]);
        if diff == 0 {
          BadInByteSame(x[byte], page, byte, 8);
        } else {
          var more := CompareByte(buf[byte], arena[at + byte], page, byte);
          bad := bad + more;
        }
      }
    }
  }

  method CompareByte(x: octet, y: octet, page: int, byte: nat) returns (bad: seq<BadBit>)
    ensures bad == BadInByte(x, y, page, byte, 8)
  {
    hide Bit;
    bad := [];
    for bit := 0 to 8
      invariant bad == BadInByte(x, y, page, byte, bit)
    {
      BitXor(x, y, bit);
      if Bit(x ^ y, bit) {
        bad := bad + [BadBit(page, byte, bit, Bit(x, bit))];
      }
    }
  }

  lemma BadBitsNone(x: seq<octet>, y: seq<octet>, page: int)
    ensures BadBits(x, y, page, 0) == []
  {
  }

  lemma BadBitsNext(x: seq<octet>, y: seq<octet>, page: int, k: nat)
    requires k < |x| && k < |y|
    ensures BadBits(x, y, page, k + 1) == BadBits(x, y, page, k) + BadInByte(x[k], y[k], page, k, 8)
  {
  }

  lemma {:induction false} BadInByteSame(x: octet, page: int, byte: nat, b: nat)
    ensures BadInByte(x, x, page, byte, b) == []
  {
    hide Bit;
    if b == 0 {
    } else {
      BadInByteSame(x, page, byte, b - 1);
    }
  }

  /** How an iteration ends: at too many bad bits; or recorded, which can fail only if
      the file is not made of whole slots. */
  predicate Ended(verdict: Verdict, file: seq<byte>, file': seq<byte>, page: int, errors: nat, maxBugs: nat) {
    && (verdict == TooManyBadBits <==> errors > maxBugs)
    && (verdict == Running ==> file' == Recorded(file, page, errors))
    && (verdict == TooManyBadBits ==> file' == file)
    && (WholeFile(file) && errors <= maxBugs ==> verdict == Running && WholeFile(file'))
  }

  /** A file is made of whole slots. */
  predicate WholeFile(file: seq<byte>) {
    |file| % 4 == 0
  }

  /** A call of record_incr. */
  method RecordSlot(stats: StatsFile, k: nat, inc: nat) returns (ok: bool)
    requires inc <= MAX
    modifies stats
    ensures ok ==> stats.file == Incremented(old(stats.file), k, inc)
    ensures WholeFile(old(stats.file)) ==> ok && WholeFile(stats.file)
  {
    hide Incremented;
    WholeSlots(stats.file, k, inc);
    ok := stats.RecordIncr(k, inc);
  }

  /** The end of an iteration: what becomes of the bad bits of a page. */
  method Record(stats: StatsFile, page: int, errors: nat, maxBugs: nat) returns (verdict: Verdict)
    requires errors <= MAX
    modifies stats
    ensures Ended(verdict, old(stats.file), stats.file, page, errors, maxBugs)
  {
    hide Incremented, Recorded, WholeFile;
    RecordedIs(stats.file, page, errors);
    if errors != 0 {
      if errors > maxBugs { return TooManyBadBits; }
      if page >= 0 {
        var ok := RecordSlot(stats, page * 2 + 1, errors);
        if !ok { return StatisticsBroken; }
      }
    }
    if page >= 0 {
      var ok := RecordSlot(stats, page * 2, 1);
      if !ok { return StatisticsBroken; }
    }
    return Running;
  }

  lemma RecordedIs(file: seq<byte>, page: int, bad: nat)
    ensures Recorded(file, page, bad) ==
            if page < 0 then file
            else Incremented(if bad > 0 then Incremented(file, 2 * page + 1, bad) else file, 2 * page, 1)
  {
  }

  /** A file of whole slots has no slot in part, and stays one. */
  lemma WholeSlots(file: seq<byte>, k: nat, inc: nat)
    ensures |file| % 4 == 0 ==> !(4 * k < |file| < 4 * k + 4) && |Incremented(file, k, inc)| % 4 == 0
  {
    hide Incremented;
    if |file| % 4 == 0 { IncrementedSlot(file, k, inc, 0); }
  }

  /** The number of pages verified in t iterations: the first n - 1 verify none. */
  function Checks(t: nat, n: nat): nat {
    if t + 1 < n then 0 else t + 1 - n
  }

  /** The local variables of do_tests. */
  datatype Ring = Ring(ipage: nat, ipass: nat, opage: nat, opass: nat, retard: nat)

  /** What they are after t iterations. */
  function RingAt(t: nat, n: nat): Ring
    requires n > 0
  {
    var c := Checks(t, n);
    Ring(FillPage(t, n), FillPass(t), FillPage(c, n), FillPass(c), if t + 1 < n then n - 1 - t else 0)
  }

  /** What an iteration does to them, when it fills a page and when it verifies one. */
  function AfterFill(r: Ring, n: nat): Ring
    requires n > 0
  {
    r.(ipage := (r.ipage + 1) % n, ipass := (r.ipass + 1) % TWO32,
       retard := if r.retard > 0 then r.retard - 1 else 0)
  }

  function AfterVerify(r: Ring, n: nat): Ring
    requires n > 0
  {
    r.(opage := (r.opage + 1) % n, opass := (r.opass + 1) % TWO32)
  }

  lemma RingSteps(t: nat, n: nat)
    requires n > 0
    ensures var r := RingAt(t, n);
            RingAt(t + 1, n) == if r.retard > 0 then AfterFill(r, n) else AfterVerify(AfterFill(r, n), n)
    ensures RingAt(t, n).retard > 0 <==> t + 1 < n
    ensures t + 1 >= n ==> RingAt(t, n).opage == FillPage(t + 1 - n, n) && RingAt(t, n).opass == FillPass(t + 1 - n)
    ensures RingAt(t, n).ipage == FillPage(t, n) < n && RingAt(t, n).ipass == FillPass(t)
    ensures RingAt(t, n).opage < n
  {
    hide FillPage, FillPass;
    PageBound(t, n);
    PageNext(t, n);
    PassNext(t);
    var c := Checks(t, n);
    PageBound(c, n);
    PageNext(c, n);
    PassNext(c);
  }

  /** Before the loop of do_tests. */
  lemma RingStart(n: nat)
    requires n > 0
    ensures RingAt(0, n) == Ring(0, 0, 0, 0, n - 1)
  {
  }

  /** What the iteration after t others does: a page is filled; and from the time all
      pages but one have been, the page filled n - 1 iterations earlier is verified
      against the pass number it was filled with. */
  predicate Iterated(a: seq<octet>, b: seq<octet>, file: seq<byte>, file': seq<byte>, t: nat, w: nat, key: seq<octet>,
                     pageMap: seq<int>, maxBugs: nat, verdict: Verdict, bad: seq<BadBit>)
    requires |pageMap| > 0
  {
    var n := |pageMap|;
    && Filled(a, b, FillPage(t, n), FillPass(t), key, w)
    && if t + 1 < n then verdict == Running && bad == [] && file' == file
       else
         var c := t + 1 - n;
         && Verified(b, FillPage(c, n), FillPass(c), key, w, pageMap[FillPage(c, n)], bad)
         && Ended(verdict, file, file', pageMap[FillPage(c, n)], |bad|, maxBugs)
  }

  lemma IteratedEarly(a: seq<octet>, b: seq<octet>, file: seq<byte>, t: nat, w: nat, key: seq<octet>,
                      pageMap: seq<int>, maxBugs: nat)
    requires |pageMap| > 0 && t + 1 < |pageMap| && Filled(a, b, FillPage(t, |pageMap|), FillPass(t), key, w)
    ensures Iterated(a, b, file, file, t, w, key, pageMap, maxBugs, Running, [])
  {
    hide Filled, FillPage, FillPass;
  }

  lemma IteratedLate(a: seq<octet>, b: seq<octet>, file: seq<byte>, file': seq<byte>, t: nat, w: nat, key: seq<octet>,
                     pageMap: seq<int>, maxBugs: nat, verdict: Verdict, bad: seq<BadBit>)
    requires |pageMap| > 0 && t + 1 >= |pageMap| && Filled(a, b, FillPage(t, |pageMap|), FillPass(t), key, w)
    requires var p := FillPage(t + 1 - |pageMap|, |pageMap|);
             && Verified(b, p, FillPass(t + 1 - |pageMap|), key, w, pageMap[p], bad)
             && Ended(verdict, file, file', pageMap[p], |bad|, maxBugs)
    ensures Iterated(a, b, file, file', t, w, key, pageMap, maxBugs, verdict, bad)
  {
    hide Filled, FillPass, Verified, Ended;
  }

  /** Memory that keeps what it is given never has a bad bit, however long the run:
      an iteration from faithful memory finds none, is not the last, and leaves the
      memory faithful. */
  lemma NoFalseAlarm(a: seq<octet>, b: seq<octet>, file: seq<byte>, file': seq<byte>, t: nat, w: nat, key: seq<octet>,
                     pageMap: seq<int>, maxBugs: nat, verdict: Verdict, bad: seq<BadBit>)
    requires |pageMap| > 0 && Iterated(a, b, file, file', t, w, key, pageMap, maxBugs, verdict, bad)
    requires Faithful(a, t, |pageMap|, w, key)
    ensures Faithful(b, t + 1, |pageMap|, w, key)
    ensures bad == [] && (WholeFile(file) ==> verdict == Running && WholeFile(file'))
  {
    var n := |pageMap|;
    hide FillPage, FillPass, Content, Put, Base, Recorded, BadBits;
    FillKeeps(a, t, n, w, key);
    if t + 1 >= n {
      var c := t + 1 - n;
      assert Kept(b, c, n, w, key);
      PageBound(c, n);
      SilentExactly(Content(FillPage(c, n), FillPass(c), key, w), Content(FillPage(c, n), FillPass(c), key, w),
                    pageMap[FillPage(c, n)]);
    }
  }

  /** At the start nothing has been filled, so any memory is faithful. */
  lemma FaithfulStart(a: seq<octet>, n: nat, w: nat, key: seq<octet>)
    requires n > 0
    ensures Faithful(a, 0, n, w, key)
  {
  }

  /** What there is after an iteration: memory and file, and what was found. */
  datatype Moment = Moment(memory: seq<octet>, file: seq<byte>, verdict: Verdict, bad: seq<BadBit>)

  /** A run of do_tests in memory that keeps what it is given: moment 0 is before the
      loop, each other one after one more iteration. */
  ghost predicate FaultFree(run: seq<Moment>, w: nat, key: seq<octet>, pageMap: seq<int>, maxBugs: nat)
    requires |pageMap| > 0
  {
    forall t :: 0 < t < |run| ==>
      Iterated(run[t - 1].memory, run[t].memory, run[t - 1].file, run[t].file, t - 1, w, key, pageMap, maxBugs,
               run[t].verdict, run[t].bad)
  }

  /** However long it is, no bad bit is ever found, and it goes on. */
  lemma {:induction false} RunSilent(run: seq<Moment>, t: nat, w: nat, key: seq<octet>, pageMap: seq<int>, maxBugs: nat)
    requires |pageMap| > 0 && t < |run| && FaultFree(run, w, key, pageMap, maxBugs) && WholeFile(run[0].file)
    ensures Faithful(run[t].memory, t, |pageMap|, w, key) && WholeFile(run[t].file)
    ensures t > 0 ==> run[t].bad == [] && run[t].verdict == Running
  {
    hide Iterated, Faithful, WholeFile;
    if t == 0 {
      FaithfulStart(run[0].memory, |pageMap|, w, key);
    } else {
      RunSilent(run, t - 1, w, key, pageMap, maxBugs);
      NoFalseAlarm(run[t - 1].memory, run[t].memory, run[t - 1].file, run[t].file, t - 1, w, key, pageMap, maxBugs,
                   run[t].verdict, run[t].bad);
    }
  }

  /** An iteration of a run in any memory: what the memory was when it began, which may
      not be what the one before it left. */
  datatype Turn = Turn(before: seq<octet>, after: seq<octet>, file: seq<byte>, verdict: Verdict, bad: seq<BadBit>)

  /** The file after the first t iterations. */
  function FileAfter(file: seq<byte>, run: seq<Turn>, t: nat): seq<byte>
    requires t <= |run|
  {
    if t == 0 then file else run[t - 1].file
  }

  /** A run of do_tests that has not ended. */
  predicate GoesOn(file: seq<byte>, run: seq<Turn>, w: nat, key: seq<octet>, pageMap: seq<int>, maxBugs: nat)
    requires |pageMap| > 0
  {
    forall t :: 0 <= t < |run| ==>
      && run[t].verdict == Running
      && Iterated(run[t].before, run[t].after, FileAfter(file, run, t), run[t].file, t, w, key, pageMap, maxBugs,
                  run[t].verdict, run[t].bad)
  }

  /** Where in memory the page is that iteration t verifies; none in the first n - 1. */
  function Place(t: nat, pageMap: seq<int>): int
    requires |pageMap| > 0
  {
    if t + 1 < |pageMap| then -1 else pageMap[FillPage(t + 1 - |pageMap|, |pageMap|)]
  }

  /** How often the first t iterations have verified page p of physical memory, and how
      many bad bits they found there. */
  function ChecksOf(run: seq<Turn>, t: nat, pageMap: seq<int>, p: nat): nat
    requires |pageMap| > 0 && t <= |run|
  {
    if t == 0 then 0 else ChecksOf(run, t - 1, pageMap, p) + if Place(t - 1, pageMap) == p then 1 else 0
  }

  function BadOf(run: seq<Turn>, t: nat, pageMap: seq<int>, p: nat): nat
    requires |pageMap| > 0 && t <= |run|
  {
    if t == 0 then 0
    else BadOf(run, t - 1, pageMap, p) + if Place(t - 1, pageMap) == p then |run[t - 1].bad| else 0
  }

  lemma RecordedSlot(file: seq<byte>, page: int, bad: nat, j: nat)
    requires WholeFile(file)
    ensures WholeFile(Recorded(file, page, bad))
    ensures Slot(Recorded(file, page, bad), j) ==
            if j == 2 * page then Saturated(Slot(file, j) + 1)
            else if j == 2 * page + 1 then Saturated(Slot(file, j) + bad)
            else Slot(file, j)
  {
    hide *;
    RecordedIs(file, page, bad);
    if page >= 0 {
      IncrementedWhole(file, 2 * page + 1, bad, j);
      var f := if bad > 0 then Incremented(file, 2 * page + 1, bad) else file;
      IncrementedWhole(f, 2 * page, 1, j);
      SlotBound(file, j);
      SaturatedNone(Slot(file, j));
    }
  }

  /** An iteration adds one to the checks of its page, and the bad bits to its errors. */
  lemma PlaceRecorded(file: seq<byte>, page: int, bad: nat, p: nat)
    requires WholeFile(file)
    ensures var r := Recorded(file, page, bad);
            && WholeFile(r)
            && Slot(r, 2 * p) == (if page == p then Saturated(Slot(file, 2 * p) + 1) else Slot(file, 2 * p))
            && Slot(r, 2 * p + 1) ==
               (if page == p then Saturated(Slot(file, 2 * p + 1) + bad) else Slot(file, 2 * p + 1))
  {
    hide *;
    RecordedSlot(file, page, bad, 2 * p);
    RecordedSlot(file, page, bad, 2 * p + 1);
  }

  lemma IncrementedWhole(file: seq<byte>, k: nat, inc: nat, j: nat)
    requires WholeFile(file)
    ensures WholeFile(Incremented(file, k, inc))
    ensures Slot(Incremented(file, k, inc), j) == if j == k then Saturated(Slot(file, k) + inc) else Slot(file, j)
  {
    hide Incremented, Slot;
    IncrementedSlot(file, k, inc, j);
  }

  lemma SaturatedNone(v: nat)
    ensures v <= MAX ==> Saturated(v + 0) == v
  {
  }

  lemma TurnRecorded(file: seq<byte>, turn: Turn, t: nat, w: nat, key: seq<octet>, pageMap: seq<int>, maxBugs: nat)
    requires |pageMap| > 0 && turn.verdict == Running
    requires Iterated(turn.before, turn.after, file, turn.file, t, w, key, pageMap, maxBugs, turn.verdict, turn.bad)
    ensures turn.file == Recorded(file, Place(t, pageMap), |turn.bad|)
  {
    hide Filled, Verified, FillPage, FillPass, Incremented;
  }

  /** In file f page p has, beyond what it had in file, these checks and these bad bits,
      as far as the slots go up. */
  predicate Counted(file: seq<byte>, f: seq<byte>, checks: nat, bad: nat, p: nat) {
    && WholeFile(f)
    && Slot(f, 2 * p) == Saturated(Slot(file, 2 * p) + checks)
    && Slot(f, 2 * p + 1) == Saturated(Slot(file, 2 * p + 1) + bad)
  }

  lemma CountedNone(file: seq<byte>, p: nat)
    requires WholeFile(file)
    ensures Counted(file, file, 0, 0, p)
  {
    SlotBound(file, 2 * p);
    SlotBound(file, 2 * p + 1);
  }

  lemma CountedNext(file: seq<byte>, f: seq<byte>, checks: nat, bad: nat, p: nat, page: int, n: nat)
    requires Counted(file, f, checks, bad, p)
    ensures var here := page == p;
            Counted(file, Recorded(f, page, n), checks + (if here then 1 else 0), bad + (if here then n else 0), p)
  {
    PlaceRecorded(f, page, n, p);
    hide Slot, Recorded, WholeFile;
  }

  lemma NoTurn(file: seq<byte>, run: seq<Turn>, pageMap: seq<int>, p: nat)
    requires |pageMap| > 0
    ensures FileAfter(file, run, 0) == file && ChecksOf(run, 0, pageMap, p) == 0 && BadOf(run, 0, pageMap, p) == 0
  {
  }

  /** Iteration t - 1, and what the sums become by it. */
  lemma LastTurn(file: seq<byte>, run: seq<Turn>, t: nat, w: nat, key: seq<octet>, pageMap: seq<int>, maxBugs: nat,
                 p: nat)
    requires |pageMap| > 0 && 0 < t <= |run| && GoesOn(file, run, w, key, pageMap, maxBugs)
    ensures FileAfter(file, run, t) == Recorded(FileAfter(file, run, t - 1), Place(t - 1, pageMap), |run[t - 1].bad|)
    ensures ChecksOf(run, t, pageMap, p) ==
            ChecksOf(run, t - 1, pageMap, p) + if Place(t - 1, pageMap) == p then 1 else 0
    ensures BadOf(run, t, pageMap, p) ==
            BadOf(run, t - 1, pageMap, p) + if Place(t - 1, pageMap) == p then |run[t - 1].bad| else 0
  {
    hide Iterated, Place, Recorded;
    TurnRecorded(FileAfter(file, run, t - 1), run[t - 1], t - 1, w, key, pageMap, maxBugs);
  }

  lemma CountedIs(file: seq<byte>, f: seq<byte>, checks: nat, bad: nat, p: nat)
    ensures Counted(file, f, checks, bad, p) ==>
              && Slot(f, 2 * p) == Saturated(Slot(file, 2 * p) + checks)
              && Slot(f, 2 * p + 1) == Saturated(Slot(file, 2 * p + 1) + bad)
  {
  }

  /** The pages have their turns one after the other, from the time all but one are filled. */
  predicate HasTurn(u: nat, pageMap: seq<int>, p: nat)
    requires |pageMap| > 0
  {
    u + 1 >= |pageMap| && pageMap[(u + 1) % |pageMap|] == p
  }

  /** How often a page has been verified is in how many of the iterations it was its turn. */
  lemma {:induction false} ChecksCount(run: seq<Turn>, t: nat, pageMap: seq<int>, p: nat)
    requires |pageMap| > 0 && t <= |run|
    ensures ChecksOf(run, t, pageMap, p) ==
            |set u: nat | u < t && HasTurn(u, pageMap, p)|
  {
    var turns := set u: nat | u < t && HasTurn(u, pageMap, p);
    if t == 0 {
      assert turns == {};
    } else {
      ChecksCount(run, t - 1, pageMap, p);
      var before := set u: nat | u < t - 1 && HasTurn(u, pageMap, p);
      PlaceIs(t - 1, pageMap);
      hide Place;
      if Place(t - 1, pageMap) == p {
        assert turns == before + {t - 1} && t - 1 !in before;
      } else {
        assert turns == before;
      }
    }
  }

  lemma PlaceIs(t: nat, pageMap: seq<int>)
    requires |pageMap| > 0
    ensures Place(t, pageMap) == if t + 1 >= |pageMap| then pageMap[(t + 1) % |pageMap|] else -1
  {
    var n := |pageMap|;
    if t + 1 >= n {
      var q, r := (t + 1 - n) / n, (t + 1 - n) % n;
      assert t + 1 == (q + 1) * n + r by { assert (q + 1) * n == q * n + n; }
      Bits.DivModUnique(t + 1, n, q + 1, r);
    }
  }

  /** Whatever the memory does in a run of any length, each page of physical memory has
      its checks and its bad bits in the file. */
  lemma {:induction false} RunStatistics(file: seq<byte>, run: seq<Turn>, t: nat, w: nat, key: seq<octet>,
                                         pageMap: seq<int>, maxBugs: nat, p: nat)
    requires |pageMap| > 0 && t <= |run| && GoesOn(file, run, w, key, pageMap, maxBugs) && WholeFile(file)
    ensures Counted(file, FileAfter(file, run, t), ChecksOf(run, t, pageMap, p), BadOf(run, t, pageMap, p), p)
    ensures var f := FileAfter(file, run, t);
            && Slot(f, 2 * p) == Saturated(Slot(file, 2 * p) + ChecksOf(run, t, pageMap, p))
            && Slot(f, 2 * p + 1) == Saturated(Slot(file, 2 * p + 1) + BadOf(run, t, pageMap, p))
  {
    hide *;
    CountedIs(file, FileAfter(file, run, t), ChecksOf(run, t, pageMap, p), BadOf(run, t, pageMap, p), p);
    if t == 0 {
      CountedNone(file, p);
      NoTurn(file, run, pageMap, p);
    } else {
      RunStatistics(file, run, t - 1, w, key, pageMap, maxBugs, p);
      LastTurn(file, run, t, w, key, pageMap, maxBugs, p);
      CountedNext(file, FileAfter(file, run, t - 1), ChecksOf(run, t - 1, pageMap, p), BadOf(run, t - 1, pageMap, p), p,
                  Place(t - 1, pageMap), |run[t - 1].bad|);
    }
  }

  /** The global variables of urumt.c. */
  class Tests {
    const n: nat
    const w: nat
    const key: seq<octet>
    const arena: array<octet>
    const memBuf: array<octet>
    const stream: Md5Stream
    const pageMap: seq<int>
    const stats: StatsFile
    const maxBugs: nat

    ghost predicate Shape() {
      && n >= 2 && arena.Length == Base(n, w) && memBuf.Length == 16 * w && 128 * w <= MAX
      && arena != memBuf && stream.Shape() && |pageMap| == n
      && {arena as object, memBuf, stats} !! stream.repr
    }

    constructor (n: nat, w: nat, key: seq<octet>, pageMap: seq<int>, stats: StatsFile, maxBugs: nat)
      requires n >= 2 && |pageMap| == n && 128 * w <= MAX
      ensures Shape()
      ensures this.n == n && this.w == w && this.key == key && this.pageMap == pageMap
      ensures this.stats == stats && this.maxBugs == maxBugs
      ensures fresh(arena) && fresh(memBuf) && fresh(stream.repr)
    {
      this.n, this.w, this.key, this.pageMap, this.stats, this.maxBugs := n, w, key, pageMap, stats, maxBugs;
      arena := new octet[Base(n, w)];
      memBuf := new octet[16 * w];
      stream := new Md5Stream();
    }

    /** A page is filled. */
    method FillNext(page: nat, pass: nat)
      requires Shape() && page < n
      modifies arena, stream.repr
      ensures Filled(old(arena[..]), arena[..], page, pass, key, w)
    {
      hide *;
      ShapeIs();
      PageInside(page, n, w);
      ghost var a := arena[..];
      PrepareArea(page, pass, key, w, arena, Base(page, w), stream);
      FilledIs(a, arena[..], page, pass, key, w);
    }

    /** What a page should be, in mem_buf. */
    method Expect(page: nat, pass: nat)
      requires Shape()
      modifies memBuf, stream.repr
      ensures memBuf[..] == Content(page, pass, key, w)
    {
      hide *;
      ShapeIs();
      ghost var m := memBuf[..];
      PrepareArea(page, pass, key, w, memBuf, 0, stream);
      PutHere(m, 0, Content(page, pass, key, w));
      assert memBuf[..] == memBuf[..][0..0 + 16 * w];
    }

    /** mem_buf against a page of the arena. */
    method ComparePage(page: nat, ghost pass: nat, ghost a: seq<octet>) returns (bad: seq<BadBit>)
      requires Shape() && page < n && a == arena[..] && memBuf[..] == Content(page, pass, key, w)
      requires Base(page, w) + 16 * w <= |a|
      ensures Verified(a, page, pass, key, w, pageMap[page], bad)
    {
      hide *;
      ShapeIs();
      var at := Base(page, w);
      bad := Compare(memBuf, arena, at, pageMap[page], Content(page, pass, key, w), a);
      VerifiedIs(a, page, pass, key, w, pageMap[page], bad);
    }

    /** The bad bits of a page. */
    method VerifyPage(page: nat, pass: nat, ghost a: seq<octet>) returns (bad: seq<BadBit>)
      requires Shape() && page < n && a == arena[..]
      modifies memBuf, stream.repr
      ensures arena[..] == a && Verified(a, page, pass, key, w, pageMap[page], bad)
    {
      hide *;
      ShapeIs();
      PageInside(page, n, w);
      Expect(page, pass);
      bad := ComparePage(page, pass, a);
    }

    /** A page is verified, and what came of it recorded. */
    method VerifyNext(page: nat, pass: nat, ghost a: seq<octet>) returns (verdict: Verdict, bad: seq<BadBit>)
      requires Shape() && page < n && a == arena[..]
      modifies memBuf, stream.repr, stats
      ensures arena[..] == a && Verified(a, page, pass, key, w, pageMap[page], bad)
      ensures Ended(verdict, old(stats.file), stats.file, pageMap[page], |bad|, maxBugs)
    {
      hide *;
      ShapeIs();
      bad := VerifyPage(page, pass, a);
      VerifiedFew(a, page, pass, key, w, pageMap[page], bad);
      verdict := Record(stats, pageMap[page], |bad|, maxBugs);
    }

    /** One iteration of do_tests, the one after t others, whatever has happened to the
        arena in between. */
    method Iterate(r: Ring, ghost t: nat) returns (r': Ring, verdict: Verdict, bad: seq<BadBit>)
      requires Shape() && r == RingAt(t, n)
      modifies arena, memBuf, stream.repr, stats
      ensures verdict == Running ==> r' == RingAt(t + 1, n)
      ensures Iterated(old(arena[..]), arena[..], old(stats.file), stats.file, t, w, key, pageMap, maxBugs,
                       verdict, bad)
    {
      ShapeIs();
      RingSteps(t, n);
      hide *;
      ghost var a, file := arena[..], stats.file;
      FillNext(r.ipage, r.ipass);
      r' := AfterFill(r, n);
      if r.retard != 0 {
        verdict, bad := Running, [];
        IteratedEarly(a, arena[..], file, t, w, key, pageMap, maxBugs);
      } else {
        ghost var b := arena[..];
        verdict, bad := VerifyNext(r.opage, r.opass, b);
        r' := AfterVerify(r', n);
        IteratedLate(a, b, file, stats.file, t, w, key, pageMap, maxBugs, verdict, bad);
      }
    }

    lemma ShapeIs()
      requires Shape()
      ensures n >= 2 && arena.Length == Base(n, w) && memBuf.Length == 16 * w && 128 * w <= MAX
      ensures arena != memBuf && stream.Shape() && |pageMap| == n
      ensures arena !in stream.repr && memBuf !in stream.repr && stats !in stream.repr
    {
    }
  }

  lemma {:induction false} BadBitsFew(x: seq<octet>, y: seq<octet>, page: int, k: nat)
    requires k <= |x| && k <= |y|
    ensures |BadBits(x, y, page, k)| <= 8 * k
  {
    hide Bit, BadInByte;
    if k == 0 {
    } else {
      BadBitsFew(x, y, page, k - 1);
      BadInByteFew(x[k - 1], y[k - 1], page, k - 1, 8);
    }
  }

  lemma {:induction false} BadInByteFew(x: octet, y: octet, page: int, byte: nat, b: nat)
    ensures |BadInByte(x, y, page, byte, b)| <= b
  {
    hide Bit;
    if b == 0 {
    } else {
      BadInByteFew(x, y, page, byte, b - 1);
    }
  }

  lemma FilledIs(a: seq<octet>, b: seq<octet>, page: nat, pass: nat, key: seq<octet>, w: nat)
    requires Base(page, w) + 16 * w <= |a| && b == Put(a, Base(page, w), Content(page, pass, key, w))
    ensures Filled(a, b, page, pass, key, w)
  {
  }

  lemma VerifiedIs(a: seq<octet>, page: nat, pass: nat, key: seq<octet>, w: nat, place: int, bad: seq<BadBit>)
    requires Base(page, w) + 16 * w <= |a|
    requires bad == BadBits(Content(page, pass, key, w), a[Base(page, w)..Base(page, w) + 16 * w], place, 16 * w)
    ensures Verified(a, page, pass, key, w, place, bad)
  {
  }

  lemma VerifiedFew(a: seq<octet>, page: nat, pass: nat, key: seq<octet>, w: nat, place: int, bad: seq<BadBit>)
    requires Verified(a, page, pass, key, w, place, bad)
    ensures |bad| <= 128 * w
  {
    hide Content, Base, BadBits;
    BadBitsFew(Content(page, pass, key, w), a[Base(page, w)..Base(page, w) + 16 * w], place, 16 * w);
  }

  lemma PassNext(u: nat)
    ensures FillPass(u + 1) == (FillPass(u) + 1) % TWO32
  {
  }
}
