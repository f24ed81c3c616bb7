/** The version counters of iatomic.h: writers count the sections they begin and end,
    and a reader can tell whether a section overlapped its read. Each counter goes up
    in one step; the steps of writers and of a reader come in any order. */
module Iatomic {
  import opened Machine

  type uint32 = x: int | 0 <= x < TWO32

  function Increment(x: uint32): uint32 {
    (x + 1) % TWO32
  }

  /** snd_atomic_write_t */
  datatype Counters = Counters(begin: uint32, end: uint32)

  /** snd_atomic_read_ok, for what snd_atomic_read_begin has kept. */
  predicate ReadOk(kept: uint32, c: Counters) {
    kept == c.begin
  }

  /** The steps of writers, each with a number of its own, and of a reader: what they do
      between snd_atomic_write_begin and snd_atomic_write_end, and between
      snd_atomic_read_begin and snd_atomic_read_ok. */
  datatype Step =
    | WriteBegin(writer: nat)
    | WriteWord(writer: nat, index: nat, value: int)
    | WriteEnd(writer: nat)
    | ReadWord(index: nat)

  /** What writers and readers share, and the writers that are inside a section. */
  datatype State = State(counters: Counters, words: seq<int>, inside: set<nat>)

  /** Writers write inside their sections only. */
  predicate Allowed(s: State, step: Step) {
    match step
    case WriteBegin(w) => w !in s.inside
    case WriteWord(w, i, _) => w in s.inside && i < |s.words|
    case WriteEnd(w) => w in s.inside
    case ReadWord(i) => i < |s.words|
  }

  function Do(s: State, step: Step): State {
    if !Allowed(s, step) then s else
    match step
    case WriteBegin(w) =>
      s.(counters := s.counters.(begin := Increment(s.counters.begin)), inside := s.inside + {w})
    case WriteWord(_, i, v) => s.(words := s.words[i := v])
    case WriteEnd(w) =>
      s.(counters := s.counters.(end := Increment(s.counters.end)), inside := s.inside - {w})
    case ReadWord(_) => s
  }

  /** The state after a run, and whether every step of the run is allowed. */
  function After(s: State, run: seq<Step>): State {
    if run == [] then s else Do(After(s, run[..|run| - 1]), run[|run| - 1])
  }

  predicate Runs(s: State, run: seq<Step>) {
    run == [] || (Runs(s, run[..|run| - 1]) && Allowed(After(s, run[..|run| - 1]), run[|run| - 1]))
  }

  lemma Wrap(a: int, b: int)
    ensures (a % TWO32 + b) % TWO32 == (a + b) % TWO32
  {
    var q := a / TWO32;
    assert a + b == q * TWO32 + (a % TWO32 + b);
  }

  /** snd_atomic_write_init */
  function Init(words: seq<int>): State {
    State(Counters(0, 0), words, {})
  }

  /** How many sections are open is what the counters differ by. */
  predicate Consistent(s: State) {
    s.counters.begin == (s.counters.end + |s.inside|) % TWO32
  }

  lemma CountSet(x: set<nat>, w: nat)
    ensures w !in x ==> |x + {w}| == |x| + 1
    ensures w in x ==> |x - {w}| == |x| - 1
  {
  }

  lemma DoConsistent(s: State, step: Step)
    requires Consistent(s) && Allowed(s, step)
    ensures Consistent(Do(s, step))
  {
    var e, k := s.counters.end, |s.inside|;
    Wrap(e + k, 1);
    Wrap(e + 1, k - 1);
    if step.WriteBegin? || step.WriteEnd? { CountSet(s.inside, step.writer); }
  }

  /** In every state that can be reached. */
  lemma {:induction false} AlwaysConsistent(s: State, run: seq<Step>)
    requires Consistent(s) && Runs(s, run)
    ensures Consistent(After(s, run))
  {
    hide Consistent, Do, Allowed;
    if run == [] {
    } else {
      AlwaysConsistent(s, run[..|run| - 1]);
      DoConsistent(After(s, run[..|run| - 1]), run[|run| - 1]);
    }
  }

  function Begun(run: seq<Step>): nat {
    if run == [] then 0
    else Begun(run[..|run| - 1]) + if run[|run| - 1].WriteBegin? then 1 else 0
  }

  /** How many sections overlap a read that starts in state s: those already open, and
      those that begin before it ends. */
  function Overlapping(s: State, read: seq<Step>): nat {
    |s.inside| + Begun(read)
  }

  lemma {:induction false} BeginCounts(s: State, run: seq<Step>)
    requires Runs(s, run)
    ensures After(s, run).counters.begin == (s.counters.begin + Begun(run)) % TWO32
  {
    if run == [] {
    } else {
      BeginCounts(s, run[..|run| - 1]);
      var b, n := s.counters.begin, Begun(run[..|run| - 1]);
      Wrap(b + n, 1);
    }
  }

  lemma Meets(e: uint32, k: nat, n: nat)
    ensures ((e + k) % TWO32 + n) % TWO32 == e <==> (k + n) % TWO32 == 0
  {
    Wrap(e + k, n);
    Wrap(k + n, e);
  }

  /** A read is accepted if and only if the number of sections that overlapped it is a
      multiple of 2^32. */
  lemma AcceptedExactly(s: State, read: seq<Step>)
    requires Consistent(s) && Runs(s, read)
    ensures ReadOk(s.counters.end, After(s, read).counters) <==> Overlapping(s, read) % TWO32 == 0
  {
    hide Begun, After, Runs;
    BeginCounts(s, read);
    Meets(s.counters.end, |s.inside|, Begun(read));
  }

  /** The words a reader sees, in the order it reads them. */
  function Seen(s: State, run: seq<Step>): seq<(nat, int)> {
    if run == [] then []
    else
      var before, last := run[..|run| - 1], run[|run| - 1];
      Seen(s, before) +
      if last.ReadWord? && last.index < |After(s, before).words|
      then [(last.index, After(s, before).words[last.index])] else []
  }

  /** All words seen are those of one state. */
  predicate Snapshot(words: seq<int>, seen: seq<(nat, int)>) {
    forall k :: 0 <= k < |seen| ==> seen[k].0 < |words| && seen[k].1 == words[seen[k].0]
  }

  /** Without an overlapping section nothing is written, so the words are those there
      were when the read began. */
  lemma {:induction false} UndisturbedSnapshot(s: State, read: seq<Step>)
    requires Runs(s, read) && Overlapping(s, read) == 0
    ensures Snapshot(s.words, Seen(s, read)) && After(s, read).words == s.words && After(s, read).inside == {}
  {
    if read == [] {
    } else {
      UndisturbedSnapshot(s, read[..|read| - 1]);
    }
  }

  /** In every run from the start: when fewer than 2^32 sections overlap a read, it is
      accepted if and only if none does, and then what it saw is one state. */
  lemma AcceptedIsSnapshot(words: seq<int>, before: seq<Step>, read: seq<Step>)
    requires Runs(Init(words), before) && Runs(After(Init(words), before), read)
    requires Overlapping(After(Init(words), before), read) < TWO32
    ensures var s := After(Init(words), before);
            && (ReadOk(s.counters.end, After(s, read).counters) <==> Overlapping(s, read) == 0)
            && (ReadOk(s.counters.end, After(s, read).counters) ==> Snapshot(s.words, Seen(s, read)))
  {
    hide Runs, After, Seen, Snapshot, Overlapping;
    var s := After(Init(words), before);
    assert Consistent(Init(words));
    AlwaysConsistent(Init(words), before);
    AcceptedExactly(s, read);
    if Overlapping(s, read) == 0 { UndisturbedSnapshot(s, read); }
  }

  /** A read of one of two words, in which n sections then set both to 1. */
  function Torn(n: nat): seq<Step> {
    if n == 0 then [ReadWord(0)]
    else Torn(n - 1) + [WriteBegin(0)] + [WriteWord(0, 0, 1)] + [WriteWord(0, 1, 1)] + [WriteEnd(0)]
  }

  lemma OneMore(s: State, run: seq<Step>, step: Step)
    ensures After(s, run + [step]) == Do(After(s, run), step)
    ensures Runs(s, run + [step]) <==> Runs(s, run) && Allowed(After(s, run), step)
    ensures Begun(run + [step]) == Begun(run) + if step.WriteBegin? then 1 else 0
    ensures Seen(s, run + [step]) ==
            Seen(s, run) + if step.ReadWord? && step.index < |After(s, run).words| then
                             [(step.index, After(s, run).words[step.index])] else []
  {
    assert (run + [step])[..|run|] == run;
    hide Do, Allowed;
  }

  lemma {:induction false} TornRuns(n: nat)
    ensures var s := Init([0, 0]);
            && Runs(s, Torn(n)) && Begun(Torn(n)) == n && Seen(s, Torn(n)) == [(0, 0)]
            && After(s, Torn(n)).inside == {} && After(s, Torn(n)).words == if n == 0 then [0, 0] else [1, 1]
  {
    var s := Init([0, 0]);
    hide Runs, After, Begun, Seen;
    if n == 0 {
      Nothing(s);
      OneMore(s, [], ReadWord(0));
      assert [] + [ReadWord(0)] == Torn(0);
    } else {
      TornRuns(n - 1);
      var r0 := Torn(n - 1);
      var r1 := r0 + [WriteBegin(0)];
      var r2 := r1 + [WriteWord(0, 0, 1)];
      var r3 := r2 + [WriteWord(0, 1, 1)];
      OneMore(s, r0, WriteBegin(0));
      OneMore(s, r1, WriteWord(0, 0, 1));
      OneMore(s, r2, WriteWord(0, 1, 1));
      OneMore(s, r3, WriteEnd(0));
      assert After(s, r3).words == [1, 1];
    }
  }

  lemma Nothing(s: State)
    ensures Runs(s, []) && After(s, []) == s && Begun([]) == 0 && Seen(s, []) == []
  {
  }

  lemma TornRead(n: nat)
    requires n > 0
    ensures var s, read := Init([0, 0]), Torn(n) + [ReadWord(1)];
            Runs(s, read) && Overlapping(s, read) == n && Seen(s, read) == [(0, 0), (1, 1)]
  {
    var s := Init([0, 0]);
    hide Runs, After, Begun, Seen, Torn;
    TornRuns(n);
    OneMore(s, Torn(n), ReadWord(1));
  }

  /** The bound is needed: a read that 2^32 sections overlap is accepted, and can have
      seen words of different states. */
  lemma TornAccepted()
    ensures var s, read := Init([0, 0]), Torn(TWO32) + [ReadWord(1)];
            && Runs(s, read) && Overlapping(s, read) == TWO32
            && ReadOk(s.counters.end, After(s, read).counters)
            && forall v :: !Snapshot([v, v], Seen(s, read))
  {
    var s := Init([0, 0]);
    hide Runs, After, Begun, Seen, Torn, Overlapping;
    TornRead(TWO32);
    var read := Torn(TWO32) + [ReadWord(1)];
    AcceptedExactly(s, read);
    assert Seen(s, read)[0] == (0, 0) && Seen(s, read)[1] == (1, 1);
  }

  /** The counters as writers share them. */
  class AtomicWrite {
    var begin: uint32
    var end: uint32

    function Value(): Counters
      reads this
    {
      Counters(begin, end)
    }

    /** snd_atomic_write_init */
    constructor ()
      ensures Value() == Init([]).counters
    {
      begin, end := 0, 0;
    }

    /** snd_atomic_write_begin */
    method Begin(ghost s: State, ghost writer: nat)
      requires Value() == s.counters && Allowed(s, WriteBegin(writer))
      modifies this
      ensures Value() == Do(s, WriteBegin(writer)).counters
    {
      begin := (begin + 1) % TWO32;
    }

    /** snd_atomic_write_end */
    method End(ghost s: State, ghost writer: nat)
      requires Value() == s.counters && Allowed(s, WriteEnd(writer))
      modifies this
      ensures Value() == Do(s, WriteEnd(writer)).counters
    {
      end := (end + 1) % TWO32;
    }
  }

  /** snd_atomic_read_t */
  class AtomicRead {
    const write: AtomicWrite
    var end: uint32

    /** snd_atomic_read_init */
    constructor (write: AtomicWrite)
      ensures this.write == write
    {
      this.write := write;
    }

    /** snd_atomic_read_begin */
    method Begin(ghost s: State)
      requires write.Value() == s.counters
      modifies this
      ensures end == s.counters.end
    {
      end := write.end;
    }

    /** snd_atomic_read_ok, of a read that began in state s: true if and only if the
        sections that overlapped it are none, or a multiple of 2^32; and if none did,
        what the read saw is one state. */
    method Ok(ghost s: State, ghost read: seq<Step>) returns (ok: bool)
      requires Consistent(s) && Runs(s, read)
      requires end == s.counters.end && write.Value() == After(s, read).counters
      ensures ok <==> Overlapping(s, read) % TWO32 == 0
      ensures ok && Overlapping(s, read) < TWO32 ==> Snapshot(s.words, Seen(s, read))
    {
      hide Runs, After, Consistent, Overlapping, Snapshot, Seen;
      AcceptedExactly(s, read);
      if Overlapping(s, read) == 0 { UndisturbedSnapshot(s, read); }
      ok := end == write.begin;
    }
  }
}
