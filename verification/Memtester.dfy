/** tests.c of memtester: which faults of memory the tests find. */
module Memtester {
  import opened Machine

  /** Words of memory behind address lines that may be at fault: word i of a buffer is
      kept in cell wiring[i]. */
  class Memory {
    const wiring: seq<nat>
    const cells: array<int>

    ghost predicate Valid() {
      forall i :: 0 <= i < |wiring| ==> wiring[i] < cells.Length
    }

    constructor (wiring: seq<nat>, n: nat)
      requires forall i :: 0 <= i < |wiring| ==> wiring[i] < n
      ensures Valid() && this.wiring == wiring && fresh(cells)
    {
      this.wiring := wiring;
      cells := new int[n];
    }

    function Read(i: nat): int
      requires Valid() && i < |wiring|
      reads cells
    {
      cells[wiring[i]]
    }

    method Write(i: nat, v: int)
      requires Valid() && i < |wiring|
      modifies cells
      ensures forall k :: 0 <= k < |wiring| ==> Read(k) == if wiring[k] == wiring[i] then v else old(Read(k))
    {
      cells[wiring[i]] := v;
    }
  }

  /** No two of the first count words are kept in the same cell. */
  predicate Injective(wiring: seq<nat>, count: nat)
    requires count <= |wiring|
  {
    forall i, k :: 0 <= i < k < count ==> wiring[i] != wiring[k]
  }

  /** What test_stuck_address puts into word i in round j: its address, or all bits of
      it turned over. */
  function Pattern(base: nat, j: nat, i: nat): int {
    if (j + i) % 2 == 0 then base + 4 * i else TWO32 - 1 - (base + 4 * i)
  }

  /** No two words of a round hold the same: an address and another one turned over add
      up to an even number. */
  lemma PatternsDiffer(base: nat, j: nat, i: nat, k: nat)
    requires i != k
    ensures Pattern(base, j, i) != Pattern(base, j, k)
  {
    var a, b := base + 4 * i, base + 4 * k;
    assert (a + b) % 2 == 0 by { assert a + b == 2 * (base + 2 * i + 2 * k); }
  }

  /** Two rounds put an address and then all its bits turned over into a word, or the other
      way round; and so do two words in a round. */
  lemma PatternTurned(base: nat, j: nat, i: nat)
    ensures Pattern(base, j, i) + Pattern(base, j + 1, i) == TWO32 - 1
    ensures Pattern(base, j, i + 1) == Pattern(base, j + 1, i) + if (j + i) % 2 == 0 then -4 else 4
    ensures Pattern(base, 0, 0) == base
  {
  }

  /** What is left in each cell is the pattern of the last word kept there. */
  ghost predicate LastWritten(m: Memory, base: nat, j: nat, n: nat)
    requires m.Valid() && n <= |m.wiring|
    reads m.cells
  {
    forall k :: 0 <= k < n && IsLast(m.wiring, k, n) ==> m.Read(k) == Pattern(base, j, k)
  }

  /** Of the first n words, k is the last one in its cell. */
  predicate IsLast(wiring: seq<nat>, k: nat, n: nat)
    requires k < n <= |wiring|
  {
    forall l :: k < l < n ==> wiring[l] != wiring[k]
  }

  lemma IsLastNext(wiring: seq<nat>, k: nat, n: nat)
    requires k < n < |wiring|
    ensures IsLast(wiring, k, n + 1) <==> IsLast(wiring, k, n) && wiring[n] != wiring[k]
    ensures IsLast(wiring, n, n + 1)
  {
  }

  lemma {:induction false} LastOne(wiring: seq<nat>, count: nat, i: nat) returns (k: nat)
    requires i < count <= |wiring|
    ensures i <= k < count && wiring[k] == wiring[i] && IsLast(wiring, k, count)
    decreases count - i
  {
    if l :| i < l < count && wiring[l] == wiring[i] {
      k := LastOne(wiring, count, l);
    } else {
      k := i;
    }
  }

  /** A round is passed if and only if no two words share a cell. */
  lemma RoundPassed(m: Memory, base: nat, j: nat, count: nat)
    requires m.Valid() && count <= |m.wiring| && LastWritten(m, base, j, count)
    ensures (forall i :: 0 <= i < count ==> m.Read(i) == Pattern(base, j, i)) <==> Injective(m.wiring, count)
  {
    if !Injective(m.wiring, count) {
      var i, k :| 0 <= i < k < count && m.wiring[i] == m.wiring[k];
      var last := LastOne(m.wiring, count, k);
      PatternsDiffer(base, j, i, last);
      assert m.Read(last) == Pattern(base, j, last) && m.Read(i) == m.Read(last);
    }
  }

  /** test_stuck_address returns 0 if and only if every word has a cell of its own. */
  method TestStuckAddress(m: Memory, base: nat, count: nat) returns (r: int)
    requires m.Valid() && count <= |m.wiring| && base + 4 * count <= TWO32
    modifies m.cells
    ensures r == if Injective(m.wiring, count) then 0 else -1
    ensures r == 0 ==> forall i :: 0 <= i < count ==> m.Read(i) == Pattern(base, 15, i)
  {
    hide Pattern, Injective, LastWritten;
    for j := 0 to 16
      invariant j > 0 ==> Injective(m.wiring, count)
      invariant j > 0 ==> forall k :: 0 <= k < count ==> m.Read(k) == Pattern(base, j - 1, k)
    {
      SetAddresses(m, base, j, count);
      RoundPassed(m, base, j, count);
      for i := 0 to count
        invariant forall k :: 0 <= k < i ==> m.Read(k) == Pattern(base, j, k)
      {
        if m.Read(i) != Pattern(base, j, i) { return -1; }
      }
    }
    r := 0;
  }

  /** The first loop of a round. */
  method SetAddresses(m: Memory, base: nat, j: nat, count: nat)
    requires m.Valid() && count <= |m.wiring|
    modifies m.cells
    ensures LastWritten(m, base, j, count)
  {
    hide Pattern, IsLast;
    for i := 0 to count
      invariant LastWritten(m, base, j, i)
    {
      forall k | 0 <= k < i
        ensures IsLast(m.wiring, k, i + 1) <==> IsLast(m.wiring, k, i) && m.wiring[i] != m.wiring[k]
      {
        IsLastNext(m.wiring, k, i);
      }
      m.Write(i, Pattern(base, j, i));
    }
  }

  /** Bits of a word that are stuck, and at what. */
  datatype Fault = Fault(stuck: word, at: word)

  function Through(f: Fault, v: word): word {
    (v & !f.stuck) | (f.at & f.stuck)
  }

  const ONEBITS: word := 0xffff_ffff

  /** Two words with faults read alike, whatever is written. */
  ghost predicate Alike(f: Fault, g: Fault) {
    forall v: word :: Through(f, v) == Through(g, v)
  }

  /** All ones and all zeros tell them apart, if anything does. */
  lemma SolidBitsTell(f: Fault, g: Fault)
    ensures Alike(f, g) <==> Through(f, ONEBITS) == Through(g, ONEBITS) && Through(f, 0) == Through(g, 0)
  {
    if Through(f, ONEBITS) == Through(g, ONEBITS) && Through(f, 0) == Through(g, 0) {
      forall v: word ensures Through(f, v) == Through(g, v) { SameThrough(f, g, v); }
    }
  }

  lemma SameThrough(f: Fault, g: Fault, v: word)
    requires Through(f, ONEBITS) == Through(g, ONEBITS) && Through(f, 0) == Through(g, 0)
    ensures Through(f, v) == Through(g, v)
  {
  }

  /** It is the stuck bits and their values that make the difference. */
  lemma AlikeExactly(f: Fault, g: Fault)
    ensures Alike(f, g) <==> f.stuck == g.stuck && f.at & f.stuck == g.at & g.stuck
  {
    SolidBitsTell(f, g);
    SameMasks(f, g);
    hide Through, Alike;
  }

  lemma SameMasks(f: Fault, g: Fault)
    ensures Through(f, ONEBITS) == Through(g, ONEBITS) && Through(f, 0) == Through(g, 0) <==>
            f.stuck == g.stuck && f.at & f.stuck == g.at & g.stuck
  {
    ThroughSolid(f);
    ThroughSolid(g);
    hide Through;
    if Through(f, ONEBITS) == Through(g, ONEBITS) && Through(f, 0) == Through(g, 0) {
      StuckBits(f.stuck, f.at);
      StuckBits(g.stuck, g.at);
    }
  }

  lemma ThroughSolid(f: Fault)
    ensures Through(f, 0) == f.at & f.stuck && Through(f, ONEBITS) == !f.stuck | (f.at & f.stuck)
  {
  }

  /** The bits that are not stuck are those that follow both. */
  lemma StuckBits(stuck: word, at: word)
    ensures stuck == !((!stuck | (at & stuck)) & !(at & stuck))
  {
  }

  /** A buffer whose words may have stuck bits. */
  class Buffer {
    const words: array<word>
    const faults: seq<Fault>

    ghost predicate Valid() {
      words.Length == |faults|
    }

    constructor (faults: seq<Fault>)
      ensures Valid() && this.faults == faults && fresh(words)
    {
      this.faults := faults;
      words := new word[|faults|];
    }
  }

  /** compare_regions */
  method CompareRegions(a: Buffer, b: Buffer, count: nat) returns (r: int)
    requires count <= a.words.Length && count <= b.words.Length
    ensures r == if a.words[..count] == b.words[..count] then 0 else -1
  {
    r := 0;
    for i := 0 to count
      invariant r == if a.words[..i] == b.words[..i] then 0 else -1
    {
      if a.words[i] != b.words[i] {
        r := -1;
      }
    }
  }

  /** What test_solidbits_comparison writes in round j. */
  function Solid(j: nat, i: nat): word {
    var q := if j % 2 == 0 then ONEBITS else 0;
    if i % 2 == 0 then q else !q
  }

  lemma SolidRounds(j: nat, i: nat)
    ensures Solid(j, i) == if (j + i) % 2 == 0 then ONEBITS else 0
  {
  }

  /** No word of the first count can be told apart from the one in the other buffer. */
  ghost predicate AllAlike(f: seq<Fault>, g: seq<Fault>, count: nat)
    requires count <= |f| && count <= |g|
  {
    forall i :: 0 <= i < count ==> Alike(f[i], g[i])
  }

  /** The first loop of a round: *p1++ = *p2++ = ... */
  method SetSolid(a: Buffer, b: Buffer, count: nat, j: nat)
    requires a.Valid() && b.Valid() && count <= |a.faults| && count <= |b.faults| && a.words != b.words
    modifies a.words, b.words
    ensures forall i :: 0 <= i < count ==>
              a.words[i] == Through(a.faults[i], Solid(j, i)) && b.words[i] == Through(b.faults[i], Solid(j, i))
  {
    hide Through, Solid;
    for i := 0 to count
      invariant forall k :: 0 <= k < i ==>
                  a.words[k] == Through(a.faults[k], Solid(j, k)) && b.words[k] == Through(b.faults[k], Solid(j, k))
    {
      a.words[i] := Through(a.faults[i], Solid(j, i));
      b.words[i] := Through(b.faults[i], Solid(j, i));
    }
  }

  /** What round j finds. */
  ghost predicate RoundAlike(f: seq<Fault>, g: seq<Fault>, count: nat, j: nat)
    requires count <= |f| && count <= |g|
  {
    forall i :: 0 <= i < count ==> Through(f[i], Solid(j, i)) == Through(g[i], Solid(j, i))
  }

  lemma RoundsAlike(f: seq<Fault>, g: seq<Fault>, count: nat)
    requires count <= |f| && count <= |g|
    ensures AllAlike(f, g, count) ==> forall j: nat :: RoundAlike(f, g, count, j)
    ensures RoundAlike(f, g, count, 0) && RoundAlike(f, g, count, 1) ==> AllAlike(f, g, count)
  {
    hide Through, Solid;
    if RoundAlike(f, g, count, 0) && RoundAlike(f, g, count, 1) {
      forall i | 0 <= i < count ensures Alike(f[i], g[i]) {
        SolidRounds(0, i);
        SolidRounds(1, i);
        SolidBitsTell(f[i], g[i]);
      }
    }
  }

  /** test_solidbits_comparison returns 0 if and only if the same bits are stuck, at the
      same values, in both buffers. */
  method TestSolidBits(a: Buffer, b: Buffer, count: nat) returns (r: int)
    requires a.Valid() && b.Valid() && count <= |a.faults| && count <= |b.faults| && a.words != b.words
    modifies a.words, b.words
    ensures r == if AllAlike(a.faults, b.faults, count) then 0 else -1
  {
    hide Through, Solid, Alike, AllAlike;
    RoundsAlike(a.faults, b.faults, count);
    for j := 0 to 64
      invariant forall k: nat :: k < j ==> RoundAlike(a.faults, b.faults, count, k)
    {
      SetSolid(a, b, count, j);
      var bad := CompareRegions(a, b, count);
      assert a.words[..count] == b.words[..count] <==> RoundAlike(a.faults, b.faults, count, j) by {
        assert forall i :: 0 <= i < count ==> a.words[..count][i] == a.words[i] && b.words[..count][i] == b.words[i];
      }
      if bad != 0 { return -1; }
    }
    r := 0;
  }
}
