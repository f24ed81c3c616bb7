/** The statistics file of urumt: slots of four octets, high order first, two for
    each page of physical memory. */
module Stats {
  import opened Machine

  const MAX := 0xFFFF_FFFF

  /** Octets read high order first. */
  function BigEndian(s: seq<byte>): nat {
    if s == [] then 0 else BigEndian(s[..|s| - 1]) * 0x100 + s[|s| - 1] as int
  }

  lemma Four(a: byte, b: byte, c: byte, d: byte)
    ensures BigEndian([a, b, c, d]) == a as int * 0x100_0000 + b as int * 0x1_0000 + c as int * 0x100 + d as int
  {
    assert [a, b, c, d][..3] == [a, b, c] && [a, b, c][..2] == [a, b] && [a, b][..1] == [a];
    assert BigEndian([a]) == a as int;
    assert BigEndian([a, b]) == BigEndian([a]) * 0x100 + b as int;
    assert BigEndian([a, b, c]) == BigEndian([a, b]) * 0x100 + c as int;
  }

  /** A number as four octets. */
  function Octets(v: nat): (s: seq<byte>)
    ensures |s| == 4
  {
    [v / 0x100 / 0x100 / 0x100 % 0x100, v / 0x100 / 0x100 % 0x100, v / 0x100 % 0x100, v % 0x100]
  }

  lemma OctetsRead(v: nat)
    requires v <= MAX
    ensures BigEndian(Octets(v)) == v
  {
    var s := Octets(v);
    Four(s[0], s[1], s[2], s[3]);
    var v1 := v / 0x100;
    var v2 := v1 / 0x100;
    assert v == v1 * 0x100 + v % 0x100 && v1 == v2 * 0x100 + v1 % 0x100;
    assert v2 == v2 / 0x100 * 0x100 + v2 % 0x100 && v2 / 0x100 < 0x100;
  }

  lemma ReadBound(s: seq<byte>)
    requires |s| == 4
    ensures BigEndian(s) <= MAX
  {
    Four(s[0], s[1], s[2], s[3]);
    assert s == [s[0], s[1], s[2], s[3]];
  }

  /** What a slot holds; one beyond the end of the file holds 0. */
  function Slot(file: seq<byte>, k: nat): nat {
    if 4 * k + 4 <= |file| then BigEndian(file[4 * k..4 * k + 4]) else 0
  }

  function Saturated(v: nat): nat {
    if v > MAX then MAX else v
  }

  /** A file with new octets for slot k; writing beyond the end leaves a hole of zeros. */
  function Overwrite(file: seq<byte>, k: nat, s: seq<byte>): (r: seq<byte>)
    requires |s| == 4
    ensures |r| == if 4 * k + 4 <= |file| then |file| else 4 * k + 4
  {
    if 4 * k + 4 <= |file| then file[..4 * k] + s + file[4 * k + 4..]
    else if 4 * k <= |file| then file[..4 * k] + s
    else file + seq(4 * k - |file|, _ => 0) + s
  }

  lemma OverwriteSlot(file: seq<byte>, k: nat, s: seq<byte>, j: nat)
    requires |s| == 4 && |file| % 4 == 0
    ensures Slot(Overwrite(file, k, s), j) == if j == k then BigEndian(s) else Slot(file, j)
  {
    hide BigEndian;
    var r := Overwrite(file, k, s);
    if 4 * j + 4 <= |r| {
      OverwriteAt(file, k, s, j);
      Four(0, 0, 0, 0);
    }
  }

  lemma OverwriteAt(file: seq<byte>, k: nat, s: seq<byte>, j: nat)
    requires |s| == 4 && |file| % 4 == 0 && 4 * j + 4 <= |Overwrite(file, k, s)|
    ensures Overwrite(file, k, s)[4 * j..4 * j + 4] ==
            if j == k then s else if 4 * j + 4 <= |file| then file[4 * j..4 * j + 4] else [0, 0, 0, 0]
  {
    var r := Overwrite(file, k, s);
    assert r[4 * k..4 * k + 4] == s;
    forall i | 0 <= i < |r| && !(4 * k <= i < 4 * k + 4)
      ensures r[i] == if i < |file| then file[i] else 0
    {
    }
    hide Overwrite;
  }

  /** What record_incr makes of a file. */
  function Incremented(file: seq<byte>, k: nat, inc: nat): seq<byte> {
    Overwrite(file, k, Octets(Saturated(Slot(file, k) + inc)))
  }

  lemma IncrementedIs(file: seq<byte>, k: nat, inc: nat)
    ensures Incremented(file, k, inc) == Overwrite(file, k, Octets(Saturated(Slot(file, k) + inc)))
  {
  }

  /** One slot goes up by the increment, as far as it can; all others stay; and a file
      of whole slots stays one. */
  lemma IncrementedSlot(file: seq<byte>, k: nat, inc: nat, j: nat)
    requires |file| % 4 == 0
    ensures Slot(Incremented(file, k, inc), j) == if j == k then Saturated(Slot(file, k) + inc) else Slot(file, j)
    ensures |Incremented(file, k, inc)| == if 4 * k + 4 <= |file| then |file| else 4 * k + 4
  {
    OctetsRead(Saturated(Slot(file, k) + inc));
    OverwriteSlot(file, k, Octets(Saturated(Slot(file, k) + inc)), j);
  }

  /** A call of record_incr. */
  datatype Increment = Increment(slot: nat, inc: nat)

  /** A file after a run of calls. */
  function After(file: seq<byte>, run: seq<Increment>): seq<byte> {
    if run == [] then file
    else
      var last := run[|run| - 1];
      Incremented(After(file, run[..|run| - 1]), last.slot, last.inc)
  }

  /** The sum of what a run adds to a slot. */
  function Total(run: seq<Increment>, k: nat): nat {
    if run == [] then 0
    else
      var last := run[|run| - 1];
      Total(run[..|run| - 1], k) + if last.slot == k then last.inc else 0
  }

  lemma SlotBound(file: seq<byte>, k: nat)
    ensures Slot(file, k) <= MAX
  {
    if 4 * k + 4 <= |file| { ReadBound(file[4 * k..4 * k + 4]); }
  }

  /** Over any run a slot holds its first value and all the increments, or the largest
      number if that is less. */
  lemma {:induction false} RunSlot(file: seq<byte>, run: seq<Increment>, k: nat)
    requires |file| % 4 == 0
    ensures |After(file, run)| % 4 == 0
    ensures Slot(After(file, run), k) == Saturated(Slot(file, k) + Total(run, k))
  {
    hide Slot, Incremented;
    if run == [] {
      SlotBound(file, k);
    } else {
      var before, last := run[..|run| - 1], run[|run| - 1];
      RunSlot(file, before, k);
      IncrementedSlot(After(file, before), last.slot, last.inc, k);
    }
  }

  /** The file is as long as the highest slot asks for. */
  lemma {:induction false} RunLength(file: seq<byte>, run: seq<Increment>, n: nat)
    requires |file| % 4 == 0
    ensures 4 * n < |After(file, run)| <==> 4 * n < |file| || exists i :: 0 <= i < |run| && run[i].slot >= n
  {
    hide Slot, Incremented;
    if run == [] {
    } else {
      var before, last := run[..|run| - 1], run[|run| - 1];
      RunLength(file, before, n);
      RunSlot(file, before, 0);
      IncrementedSlot(After(file, before), last.slot, last.inc, 0);
      assert forall i :: 0 <= i < |before| ==> before[i] == run[i];
    }
  }

  /** A line of print_stats. */
  datatype Row = Row(page: nat, pass: nat, bad: nat)

  /** The lines for the first n pages. */
  function Rows(file: seq<byte>, n: nat): seq<Row> {
    seq(n, p requires 0 <= p < n => Row(p, Slot(file, 2 * p), Slot(file, 2 * p + 1)))
  }

  /** The file stats. */
  class StatsFile {
    var file: seq<byte>

    /** record_incr; the program ends when there is only part of the slot. */
    method RecordIncr(offset: nat, inc: nat) returns (ok: bool)
      requires inc <= MAX
      modifies this
      ensures ok <==> !(4 * offset < |old(file)| < 4 * offset + 4)
      ensures file == if ok then Incremented(old(file), offset, inc) else old(file)
    {
      hide Overwrite, Slot, Octets, BigEndian;
      var at := 4 * offset;
      SlotIs(file, offset);
      SlotBound(file, offset);
      ok := !(at < |file| < at + 4);
      if !ok { return; }
      var buf: seq<byte> := [0, 0, 0, 0];
      Four(0, 0, 0, 0);
      if at < |file| {
        buf := file[at..at + 4];
      }
      var v := 0;
      NoOctets();
      for i := 0 to 4
        invariant file == old(file) && v == BigEndian(buf[..i])
      {
        OneMore(buf, i);
        v := v * 0x100 + buf[i] as int;
      }
      assert buf[..4] == buf;
      assert v == Slot(old(file), offset);
      var v2 := (v + inc) % TWO32;
      assert Saturated(v + inc) == if v2 < v then MAX else v2;
      if v2 < v {
        buf := [0xFF, 0xFF, 0xFF, 0xFF];
        AllOnes();
      } else {
        buf := TakeApart(v2);
      }
      assert buf == Octets(Saturated(v + inc));
      file := Overwrite(file, offset, buf);
      IncrementedIs(old(file), offset, inc);
    }

    /** print_stats, which reads two slots at a time for as long as it gets both. */
    method PrintStats() returns (rows: seq<Row>)
      ensures rows == Rows(file, |file| / 8)
    {
      hide BigEndian;
      rows := [];
      var page := 0;
      while 8 * page + 8 <= |file|
        invariant page <= |file| / 8 && rows == Rows(file, page)
      {
        var buf := file[8 * page..8 * page + 8];
        var pass, bad := 0, 0;
        NoOctets();
        assert buf[..0] == [] && buf[4..4] == [];
        for i := 0 to 4
          invariant pass == BigEndian(buf[..i]) && bad == BigEndian(buf[4..4 + i])
        {
          OneMore(buf[..4], i);
          OneMore(buf[4..], i);
          assert buf[..4][..i] == buf[..i] && buf[..4][..i + 1] == buf[..i + 1];
          assert buf[4..][..i] == buf[4..4 + i] && buf[4..][..i + 1] == buf[4..4 + i + 1];
          pass := pass * 0x100 + buf[i] as int;
          bad := bad * 0x100 + buf[4 + i] as int;
        }
        assert buf[..4] == file[4 * (2 * page)..4 * (2 * page) + 4];
        assert buf[4..8] == file[4 * (2 * page + 1)..4 * (2 * page + 1) + 4];
        rows := rows + [Row(page, pass, bad)];
        page := page + 1;
      }
    }
  }

  lemma SlotIs(file: seq<byte>, k: nat)
    ensures Slot(file, k) == if 4 * k + 4 <= |file| then BigEndian(file[4 * k..4 * k + 4]) else 0
  {
  }

  lemma NoOctets()
    ensures BigEndian([]) == 0
  {
  }

  lemma OneMore(s: seq<byte>, i: nat)
    requires i < |s|
    ensures BigEndian(s[..i + 1]) == BigEndian(s[..i]) * 0x100 + s[i] as int
  {
    assert s[..i + 1][..i] == s[..i];
  }

  lemma AllOnes()
    ensures Octets(MAX) == [0xFF, 0xFF, 0xFF, 0xFF]
  {
  }

  /** The loop that takes a number apart, from its low order end. */
  method TakeApart(v: nat) returns (buf: seq<byte>)
    ensures buf == Octets(v)
  {
    buf := [0, 0, 0, 0];
    var v2 := v;
    var i := 3;
    while i >= 0
      invariant -1 <= i <= 3 && |buf| == 4
      invariant v2 == Shifted(v, 3 - i)
      invariant forall j :: i < j < 4 ==> buf[j] == Shifted(v, 3 - j) % 0x100
      decreases i
    {
      buf := buf[i := v2 % 0x100];
      v2 := v2 / 0x100;
      i := i - 1;
    }
    assert buf == [Shifted(v, 3) % 0x100, Shifted(v, 2) % 0x100, Shifted(v, 1) % 0x100, Shifted(v, 0) % 0x100];
    assert Shifted(v, 1) == v / 0x100;
    assert Shifted(v, 2) == v / 0x100 / 0x100;
  }

  /** v >> 8 k */
  function Shifted(v: nat, k: nat): nat {
    if k == 0 then v else Shifted(v, k - 1) / 0x100
  }

  /** From an empty file, a page has its line if and only if a slot from that page's
      second one on was ever recorded. */
  lemma RowPrinted(run: seq<Increment>, p: nat)
    ensures p < |After([], run)| / 8 <==> exists i :: 0 <= i < |run| && run[i].slot >= 2 * p + 1
    ensures p < |After([], run)| / 8 ==>
              Rows(After([], run), |After([], run)| / 8)[p] ==
              Row(p, Saturated(Total(run, 2 * p)), Saturated(Total(run, 2 * p + 1)))
  {
    hide After, Slot, Total;
    RunLength([], run, 2 * p + 1);
    RunSlot([], run, 2 * p);
    RunSlot([], run, 2 * p + 1);
    SlotIs([], 2 * p);
    SlotIs([], 2 * p + 1);
  }

  /** One page, checked once and never found bad, has no line at all. */
  lemma FirstRowMissing()
    ensures var file := After([], [Increment(0, 1)]);
            Slot(file, 0) == 1 && Rows(file, |file| / 8) == []
  {
    var run := [Increment(0, 1)];
    RowPrinted(run, 0);
    RunSlot([], run, 0);
    hide After, Slot;
    SlotIs([], 0);
    assert run[..0] == [];
  }
}
