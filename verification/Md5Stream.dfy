/** The octet stream of md5stream.c: MD5 in counter mode from a seed. */
module Md5Streams {
  import opened Md5
  import opened Md5Rounds
  import opened Machine
  import Bits

  /** n without its i low digits in base 2^32. */
  function High(n: nat, i: nat): nat {
    if i == 0 then n else High(n, i - 1) / TWO32
  }

  /** Sixteen digits of n in base 2^32, low order first: n as a number of 512 bits. */
  function Digits(n: nat): (s: seq<int>)
    ensures |s| == 16
  {
    seq(16, i requires 0 <= i < 16 => High(n, i) % TWO32)
  }

  function AsWords(s: seq<int>): Words
    requires |s| == 16
  {
    seq(16, i requires 0 <= i < 16 => (s[i] % TWO32) as word)
  }

  /** (2^32)^i */
  function Radix(i: nat): (r: nat)
    ensures r > 0
  {
    if i == 0 then 1 else TWO32 * Radix(i - 1)
  }

  lemma DivideTwice(n: nat, a: nat, b: nat)
    requires a > 0 && b > 0
    ensures b * a > 0 && n / a / b == n / (b * a)
  {
    var q := n / a;
    var p, r, s := q / b, n % a, q % b;
    assert n == q * a + r && q == p * b + s;
    assert b * a > 0 && q * a == p * (b * a) + s * a && s * a + a <= b * a by {
      Bits.MulMono(1, b, a);
      Bits.MulMono(s + 1, b, a);
      assert (p * b + s) * a == p * b * a + s * a == p * (b * a) + s * a;
      assert (s + 1) * a == s * a + a;
    }
    Bits.DivModUnique(n, b * a, p, s * a + r);
  }

  lemma {:induction false} HighIs(n: nat, i: nat)
    ensures High(n, i) == n / Radix(i)
  {
    if i == 0 {
    } else {
      HighIs(n, i - 1);
      DivideTwice(n, Radix(i - 1), TWO32);
    }
  }

  /** The counter as words: word i has the number of digit i. */
  lemma CounterWords(n: nat, i: nat)
    requires i < 16
    ensures AsWords(Digits(n))[i] as int == n / Radix(i) % TWO32
  {
    HighIs(n, i);
    hide High, Radix;
    WordOfNumber(High(n, i) % TWO32);
  }

  /** The chaining variables before block n of the stream of a seed: the final state
      of its digest, then compressed with the block numbers 0, 1, 2, ... */
  function StateAt(seed: seq<octet>, n: nat): State {
    if n == 0 then FinalState(seed) else Compress(StateAt(seed, n - 1), AsWords(Digits(n - 1)))
  }

  /** n blocks of the stream of a seed, from block k. */
  function Stream(seed: seq<octet>, k: nat, n: nat): (s: seq<octet>)
    ensures |s| == 16 * n
  {
    if n == 0 then [] else Stream(seed, k, n - 1) + Output(StateAt(seed, k + n - 1))
  }

  /** From block n on to the next, any sixteen words will do that are the digits of n in
      base 2^32. */
  lemma NextBlock(seed: seq<octet>, n: nat, x: Words)
    requires forall i :: 0 <= i < 16 ==> x[i] as int == n / Radix(i) % TWO32
    ensures StateAt(seed, 0) == FinalState(seed)
    ensures StateAt(seed, n + 1) == Compress(StateAt(seed, n), x)
    ensures Stream(seed, n, 1) == Output(StateAt(seed, n))
  {
    hide Compress, AsWords, Digits, FinalState, Radix, Output;
    forall i | 0 <= i < 16 ensures x[i] == AsWords(Digits(n))[i] {
      CounterWords(n, i);
      NumberOfWord(x[i]);
      NumberOfWord(AsWords(Digits(n))[i]);
    }
    assert x == AsWords(Digits(n));
    StreamNone(seed, n);
  }

  /** Pieces make up the whole. */
  lemma {:induction false} StreamConcat(seed: seq<octet>, k: nat, m: nat, n: nat)
    ensures Stream(seed, k, m + n) == Stream(seed, k, m) + Stream(seed, k + m, n)
  {
    hide StateAt, Output;
    if n == 0 {
    } else {
      StreamConcat(seed, k, m, n - 1);
    }
  }

  lemma StreamNone(seed: seq<octet>, k: nat)
    ensures Stream(seed, k, 0) == []
  {
  }

  lemma StreamNext(seed: seq<octet>, k: nat, n: nat)
    ensures Stream(seed, k, n + 1) == Stream(seed, k, n) + Output(StateAt(seed, k + n))
  {
  }

  lemma StateNone(seed: seq<octet>)
    ensures StateAt(seed, 0) == FinalState(seed)
  {
  }

  lemma StateNext(seed: seq<octet>, n: nat)
    ensures StateAt(seed, n + 1) == Compress(StateAt(seed, n), AsWords(Digits(n)))
  {
  }

  /** The whole blocks in a length, which the source keeps as a signed integer. */
  function Whole(length: int): nat {
    if length < 16 then 0 else length / 16
  }

  lemma WholeIs(length: int)
    ensures length >= 0 ==> 16 * Whole(length) <= length < 16 * Whole(length) + 16
    ensures length < 0 ==> Whole(length) == 0
  {
  }

  lemma WholePage(w: nat)
    ensures Whole(16 * w) == w
  {
  }

  /** As long as no carry stops, the digits below are those of n + 1. */
  lemma Carry(n: nat, i: nat)
    requires High(n + 1, i) == High(n, i) + 1
    ensures High(n, i) % TWO32 == TWO32 - 1 ==>
              High(n + 1, i) % TWO32 == 0 && High(n + 1, i + 1) == High(n, i + 1) + 1
    ensures High(n, i) % TWO32 != TWO32 - 1 ==>
              High(n + 1, i) % TWO32 == High(n, i) % TWO32 + 1 && High(n + 1, i + 1) == High(n, i + 1)
  {
  }

  lemma {:induction false} NoCarry(n: nat, i: nat, j: nat)
    requires i <= j && High(n + 1, i) == High(n, i)
    ensures High(n + 1, j) == High(n, j)
  {
    if i == j {
    } else {
      NoCarry(n, i, j - 1);
    }
  }

  lemma {:induction false} DigitsNone(i: nat)
    ensures High(0, i) == 0
  {
    if i == 0 {
    } else {
      DigitsNone(i - 1);
    }
  }

  lemma DigitsZero()
    ensures |Digits(0)| == 16 && forall i :: 0 <= i < 16 ==> Digits(0)[i] == 0
  {
    forall i | 0 <= i < 16 ensures High(0, i) == 0 { DigitsNone(i); }
  }

  /** The last loop of md5stream_fill. */
  method Count(a: array<int>, ghost n: nat)
    requires a.Length == 16 && a[..] == Digits(n)
    modifies a
    ensures a[..] == Digits(n + 1)
  {
    hide High;
    var i := 0;
    HighNone(n);
    HighNone(n + 1);
    while i < 16
      invariant i <= 16 && High(n + 1, i) == High(n, i) + 1
      invariant forall j :: 0 <= j < i ==> a[j] == High(n + 1, j) % TWO32
      invariant forall j :: i <= j < 16 ==> a[j] == High(n, j) % TWO32
    {
      Carry(n, i);
      a[i] := (a[i] + 1) % TWO32;
      if a[i] != 0 {
        forall j | i < j < 16 ensures High(n + 1, j) == High(n, j) { NoCarry(n, i + 1, j); }
        break;
      }
      i := i + 1;
    }
  }

  lemma HighNone(n: nat)
    ensures High(n, 0) == n
  {
  }

  /** The static variables of md5stream.c. seed is what the stream was seeded with
      since md5stream_init, blocks how many blocks of it have been given out. */
  class Md5Stream {
    const context: Md5Ctx
    var stopped: bool
    const counter: array<int>
    ghost var seed: seq<octet>
    ghost var blocks: nat
    ghost const repr: set<object>

    ghost predicate Shape() {
      && repr == {this, counter, context, context.buf, context.inw}
      && context.buf.Length == 4 && context.inw.Length == 16 && context.buf != context.inw
      && counter.Length == 16 && (counter as object) != context.buf && (counter as object) != context.inw
    }

    ghost predicate Valid()
      reads this, counter, context, context.buf, context.inw
    {
      && Shape()
      && if stopped then
           StateOf(context.buf[..]) == StateAt(seed, blocks) && counter[..] == Digits(blocks)
         else
           context.Valid() && context.message == seed && blocks == 0
    }

    constructor ()
      ensures Shape() && fresh(repr)
    {
      var ctx := new Md5Ctx();
      var a := new int[16];
      context, counter, repr := ctx, a, {this, a, ctx, ctx.buf, ctx.inw};
    }

    /** md5stream_init: nothing of what went before is left. */
    method Init()
      requires Shape()
      modifies repr
      ensures Valid() && !stopped && seed == []
    {
      ShapeIs();
      hide *;
      context.Start();
      stopped, seed, blocks := false, [], 0;
      Seeding();
    }

    /** md5stream_seed */
    method Seed(data: seq<octet>)
      requires Valid() && !stopped
      modifies repr
      ensures Valid() && !stopped && seed == old(seed) + data
    {
      ShapeIs();
      hide *;
      Seeding();
      for i := 0 to |data|
        modifies context, context.buf, context.inw
        invariant Shape() && context.Valid() && !stopped && context.message == old(seed) + data[..i]
      {
        ShapeIs();
        context.Feed(data[i]);
        assert data[..i + 1] == data[..i] + [data[i]];
      }
      assert data[..|data|] == data;
      seed, blocks := context.message, 0;
      Seeding();
    }

    method Close()
      requires Shape() && context.Valid()
      modifies counter, context, context.buf, context.inw
      ensures StateOf(context.buf[..]) == StateAt(old(context.message), 0) && counter[..] == Digits(0)
    {
      ShapeIs();
      hide *;
      StateNone(context.message);
      var junk := new octet[16];
      context.Stop(junk);
      ghost var final := context.buf[..];
      for i := 0 to 16
        modifies counter
        invariant context.buf[..] == final && forall j :: 0 <= j < i ==> counter[j] == 0
      {
        counter[i] := 0;
      }
      DigitsZero();
      assert counter[..] == Digits(0);
    }

    /** The first part of md5stream_fill. */
    method Settle()
      requires Valid()
      modifies this`stopped, counter, context, context.buf, context.inw
      ensures Valid() && stopped
    {
      ShapeIs();
      if !stopped { Seeding(); }
      hide *;
      if !stopped {
        Close();
        stopped := true;
        Stopped();
      }
    }

    method Advance()
      requires Shape() && StateOf(context.buf[..]) == StateAt(seed, blocks) && counter[..] == Digits(blocks)
      modifies counter, context.buf
      ensures StateOf(context.buf[..]) == StateAt(seed, blocks + 1) && counter[..] == Digits(blocks + 1)
    {
      ShapeIs();
      hide *;
      StateNext(seed, blocks);
      Transform(context.buf, AsWords(counter[..]));
      Count(counter, blocks);
    }

    /** One turn of the loop of md5stream_fill. */
    method FillBlock(area: array<octet>, at: nat)
      requires (area as object) != counter
      requires Valid() && stopped && at + 16 <= area.Length
      modifies this`blocks, area, counter, context.buf
      ensures Valid() && stopped && blocks == old(blocks) + 1
      ensures area[..] == Put(old(area[..]), at, Output(StateAt(seed, old(blocks))))
    {
      ShapeIs();
      Stopped();
      hide *;
      WriteState(context.buf, area, at);
      Advance();
      blocks := blocks + 1;
      Stopped();
    }

    /** md5stream_fill: the next blocks of the stream, as many as are whole in length. */
    method Fill(area: array<octet>, start: nat, length: int)
      requires area !in repr
      requires Valid() && start + Whole(length) * 16 <= area.Length
      modifies repr, area
      ensures Valid() && stopped && seed == old(seed) && blocks == old(blocks) + Whole(length)
      ensures area[..] == Put(old(area[..]), start, Stream(seed, old(blocks), Whole(length)))
    {
      assert Shape();
      ShapeIs();
      hide *;
      Settle();
      FillBlocks(area, start, length);
    }

    /** The loop of md5stream_fill. */
    method FillBlocks(area: array<octet>, start: nat, length: int)
      requires (area as object) != counter
      requires Valid() && stopped && start + Whole(length) * 16 <= area.Length
      modifies this`blocks, area, counter, context.buf
      ensures Valid() && stopped && blocks == old(blocks) + Whole(length)
      ensures area[..] == Put(old(area[..]), start, Stream(seed, old(blocks), Whole(length)))
    {
      hide *;
      var at, left := start, length;
      ghost var a0, k := area[..], 0;
      StreamNone(seed, blocks);
      PutNone(area[..], start);
      WholeIs(length);
      while left >= 16
        invariant Valid() && stopped && blocks == old(blocks) + k
        invariant at == start + 16 * k && left == length - 16 * k && k <= Whole(length)
        invariant area[..] == Put(a0, start, Stream(seed, old(blocks), k))
      {
        StreamNext(seed, old(blocks), k);
        PutPut(a0, start, Stream(seed, old(blocks), k), Output(StateAt(seed, blocks)));
        FillBlock(area, at);
        at, left := at + 16, left - 16;
        k := k + 1;
      }
    }

    lemma Seeding()
      requires !stopped
      ensures Valid() <==> Shape() && context.Valid() && context.message == seed && blocks == 0
    {
    }

    lemma Stopped()
      requires stopped
      ensures Valid() <==> Shape() && StateOf(context.buf[..]) == StateAt(seed, blocks) && counter[..] == Digits(blocks)
    {
    }

    lemma ShapeIs()
      ensures Shape() ==> repr == {this, counter, context, context.buf, context.inw}
      ensures Shape() ==> context.buf.Length == 4 && context.inw.Length == 16 && context.buf != context.inw
      ensures Shape() ==> counter.Length == 16
      ensures Shape() ==> (counter as object) != context.buf && (counter as object) != context.inw
    {
    }
  }
}
