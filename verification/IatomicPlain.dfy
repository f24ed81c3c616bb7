/** The same counters when an increment is what the source makes it, a load and then
    a store: other steps can come in between. */
module IatomicPlain {
  import opened Machine
  import opened Iatomic

  datatype PlainStep =
    | LoadBegin(writer: nat)
    | StoreBegin(writer: nat)
    | Put(writer: nat, index: nat, value: int)
    | LoadEnd(writer: nat)
    | StoreEnd(writer: nat)
    | Get(index: nat)

  /** Where a writer is: in between its load and its store, or in its section. */
  datatype Phase = Starting(loaded: uint32) | Inside | Ending(loaded: uint32)

  datatype Plain = Plain(counters: Counters, words: seq<int>, phases: map<nat, Phase>)

  predicate In(s: Plain, w: nat) {
    w in s.phases && s.phases[w].Inside?
  }

  predicate May(s: Plain, step: PlainStep) {
    match step
    case LoadBegin(w) => w !in s.phases
    case StoreBegin(w) => w in s.phases && s.phases[w].Starting?
    case Put(w, i, _) => In(s, w) && i < |s.words|
    case LoadEnd(w) => In(s, w)
    case StoreEnd(w) => w in s.phases && s.phases[w].Ending?
    case Get(i) => i < |s.words|
  }

  function Perform(s: Plain, step: PlainStep): Plain {
    if !May(s, step) then s else
    match step
    case LoadBegin(w) => s.(phases := s.phases[w := Starting(s.counters.begin)])
    case StoreBegin(w) =>
      s.(counters := s.counters.(begin := Increment(s.phases[w].loaded)), phases := s.phases[w := Phase.Inside])
    case Put(_, i, v) => s.(words := s.words[i := v])
    case LoadEnd(w) => s.(phases := s.phases[w := Ending(s.counters.end)])
    case StoreEnd(w) =>
      s.(counters := s.counters.(end := Increment(s.phases[w].loaded)), phases := s.phases - {w})
    case Get(_) => s
  }

  function PlainAfter(s: Plain, run: seq<PlainStep>): Plain {
    if run == [] then s else Perform(PlainAfter(s, run[..|run| - 1]), run[|run| - 1])
  }

  predicate PlainRuns(s: Plain, run: seq<PlainStep>) {
    run == [] || (PlainRuns(s, run[..|run| - 1]) && May(PlainAfter(s, run[..|run| - 1]), run[|run| - 1]))
  }

  function PlainSeen(s: Plain, run: seq<PlainStep>): seq<(nat, int)> {
    if run == [] then []
    else
      var before, last := run[..|run| - 1], run[|run| - 1];
      PlainSeen(s, before) +
      if last.Get? && last.index < |PlainAfter(s, before).words|
      then [(last.index, PlainAfter(s, before).words[last.index])] else []
  }

  function PlainInit(words: seq<int>): Plain {
    Plain(Counters(0, 0), words, map[])
  }

  /** No increment begins while another one of the same counter is under way. */
  predicate Apart(s: Plain, step: PlainStep) {
    && (step.LoadBegin? ==> forall w :: w in s.phases ==> !s.phases[w].Starting?)
    && (step.LoadEnd? ==> forall w :: w in s.phases ==> !s.phases[w].Ending?)
  }

  predicate RunsApart(s: Plain, run: seq<PlainStep>) {
    run == [] || (RunsApart(s, run[..|run| - 1]) && Apart(PlainAfter(s, run[..|run| - 1]), run[|run| - 1]))
  }

  /** Then what an increment has loaded is still there when it is stored. */
  predicate Fresh(s: Plain) {
    && (forall w :: w in s.phases && s.phases[w].Starting? ==>
          s.phases[w].loaded == s.counters.begin && forall v :: v in s.phases && s.phases[v].Starting? ==> v == w)
    && (forall w :: w in s.phases && s.phases[w].Ending? ==>
          s.phases[w].loaded == s.counters.end && forall v :: v in s.phases && s.phases[v].Ending? ==> v == w)
  }

  /** The state of the single-step counters: a section is open from the store of its
      beginning to that of its end. */
  function Atomic(s: Plain): State {
    State(s.counters, s.words, set w | w in s.phases && !s.phases[w].Starting?)
  }

  /** The single steps of a run. */
  function Single(run: seq<PlainStep>): seq<Step> {
    if run == [] then []
    else
      Single(run[..|run| - 1]) +
      match run[|run| - 1]
      case LoadBegin(_) => []
      case StoreBegin(w) => [WriteBegin(w)]
      case Put(w, i, v) => [WriteWord(w, i, v)]
      case LoadEnd(_) => []
      case StoreEnd(w) => [WriteEnd(w)]
      case Get(i) => [ReadWord(i)]
  }

  /** A step is a single step, or none. */
  lemma Simulates(s: Plain, step: PlainStep)
    requires Fresh(s) && May(s, step) && Apart(s, step)
    ensures var a, b := Atomic(s), Atomic(Perform(s, step));
            && Fresh(Perform(s, step))
            && match step
               case LoadBegin(_) => b == a
               case StoreBegin(w) => Allowed(a, WriteBegin(w)) && b == Do(a, WriteBegin(w))
               case Put(w, i, v) => Allowed(a, WriteWord(w, i, v)) && b == Do(a, WriteWord(w, i, v))
               case LoadEnd(_) => b == a
               case StoreEnd(w) => Allowed(a, WriteEnd(w)) && b == Do(a, WriteEnd(w))
               case Get(i) => Allowed(a, ReadWord(i)) && b == a == Do(a, ReadWord(i))
  {
  }

  /** A run in which increments keep apart is a run of single steps. */
  lemma {:induction false} RunSimulates(s: Plain, run: seq<PlainStep>)
    requires Fresh(s) && PlainRuns(s, run) && RunsApart(s, run)
    ensures Fresh(PlainAfter(s, run)) && Runs(Atomic(s), Single(run))
    ensures After(Atomic(s), Single(run)) == Atomic(PlainAfter(s, run))
    ensures Seen(Atomic(s), Single(run)) == PlainSeen(s, run)
  {
    hide Fresh, Perform, Do, Allowed, May, Apart, Atomic;
    if run == [] {
    } else {
      var before, last := run[..|run| - 1], run[|run| - 1];
      RunSimulates(s, before);
      Simulates(PlainAfter(s, before), last);
      SameWords(PlainAfter(s, before));
      if !last.LoadBegin? && !last.LoadEnd? {
        var single := Single(run);
        assert single == Single(before) + [single[|single| - 1]];
        OneMore(Atomic(s), Single(before), single[|single| - 1]);
      } else {
        assert Single(run) == Single(before);
      }
    }
  }

  lemma SameWords(s: Plain)
    ensures Atomic(s).words == s.words && Atomic(s).counters == s.counters
  {
  }

  /** So what is proved of single steps holds: a read that fewer than 2^32 sections
      overlap is accepted if and only if none does, and then saw one state. */
  lemma PlainSnapshot(words: seq<int>, before: seq<PlainStep>, read: seq<PlainStep>)
    requires var s := PlainAfter(PlainInit(words), before);
             && PlainRuns(PlainInit(words), before) && RunsApart(PlainInit(words), before)
             && PlainRuns(s, read) && RunsApart(s, read) && Overlapping(Atomic(s), Single(read)) < TWO32
    ensures var s := PlainAfter(PlainInit(words), before);
            var ok := ReadOk(s.counters.end, PlainAfter(s, read).counters);
            (ok <==> Overlapping(Atomic(s), Single(read)) == 0) && (ok ==> Snapshot(s.words, PlainSeen(s, read)))
  {
    var s0 := PlainInit(words);
    assert Fresh(s0) && Atomic(s0) == Init(words);
    hide *;
    RunSimulates(s0, before);
    var s := PlainAfter(s0, before);
    RunSimulates(s, read);
    AcceptedIsSnapshot(words, Single(before), Single(read));
    SameWords(s);
    SameWords(PlainAfter(s, read));
  }

  predicate OnlyWriter(run: seq<PlainStep>, w: nat) {
    forall k :: 0 <= k < |run| ==> run[k].Get? || run[k].writer == w
  }

  /** One writer keeps its increments apart. */
  lemma {:induction false} OneWriterApart(s: Plain, run: seq<PlainStep>, w: nat)
    requires PlainRuns(s, run) && OnlyWriter(run, w) && s.phases.Keys <= {w}
    ensures RunsApart(s, run) && PlainAfter(s, run).phases.Keys <= {w}
  {
    if run == [] {
    } else {
      var before, last := run[..|run| - 1], run[|run| - 1];
      OneWriterApart(s, before, w);
      assert last == run[|run| - 1];
    }
  }

  lemma PlainNext(s: Plain, run: seq<PlainStep>, step: PlainStep)
    ensures PlainAfter(s, run + [step]) == Perform(PlainAfter(s, run), step)
    ensures PlainRuns(s, run + [step]) <==> PlainRuns(s, run) && May(PlainAfter(s, run), step)
    ensures PlainSeen(s, run + [step]) ==
            PlainSeen(s, run) + if step.Get? && step.index < |PlainAfter(s, run).words|
                                then [(step.index, PlainAfter(s, run).words[step.index])] else []
  {
    assert (run + [step])[..|run|] == run;
    hide Perform, May;
  }

  lemma PlainNone(s: Plain)
    ensures PlainRuns(s, []) && PlainAfter(s, []) == s && PlainSeen(s, []) == []
  {
  }

  lemma SingleNone()
    ensures Begun(Single([])) == 0
  {
  }

  lemma BegunNext(run: seq<PlainStep>, step: PlainStep)
    ensures Begun(Single(run + [step])) == Begun(Single(run)) + if step.StoreBegin? then 1 else 0
  {
    assert (run + [step])[..|run|] == run;
    if !step.LoadBegin? && !step.LoadEnd? {
      var single := Single(run + [step]);
      assert single == Single(run) + [single[|single| - 1]];
      assert single[..|single| - 1] == Single(run);
    } else {
      assert Single(run + [step]) == Single(run);
    }
  }

  /** Two writers begin at once, and an increment is lost; then the first one ends. */
  const LOST: seq<PlainStep> :=
    [] + [LoadBegin(0)] + [LoadBegin(1)] + [StoreBegin(0)] + [StoreBegin(1)] + [LoadEnd(0)] + [StoreEnd(0)]

  /** A read in which the second one writes. */
  const DURING: seq<PlainStep> := [] + [Get(0)] + [Put(1, 0, 1)] + [Put(1, 1, 1)] + [Get(1)]

  lemma LostIncrement()
    ensures var s := PlainInit([0, 0]);
            PlainRuns(s, LOST) && PlainAfter(s, LOST) == Plain(Counters(1, 1), [0, 0], map[1 := Phase.Inside])
  {
    var s := PlainInit([0, 0]);
    hide PlainRuns, PlainAfter, PlainSeen;
    PlainNone(s);
    var r1: seq<PlainStep> := [] + [LoadBegin(0)];
    var r2 := r1 + [LoadBegin(1)];
    var r3 := r2 + [StoreBegin(0)];
    var r4 := r3 + [StoreBegin(1)];
    var r5 := r4 + [LoadEnd(0)];
    PlainNext(s, [], LoadBegin(0));
    PlainNext(s, r1, LoadBegin(1));
    PlainNext(s, r2, StoreBegin(0));
    PlainNext(s, r3, StoreBegin(1));
    PlainNext(s, r4, LoadEnd(0));
    PlainNext(s, r5, StoreEnd(0));
    assert PlainAfter(s, r4).counters == Counters(1, 0);
    assert PlainAfter(s, LOST).phases == map[1 := Phase.Inside];
  }

  /** The sections that overlap that read: the one of the second writer, which is open
      when the read begins. */
  lemma DuringOverlaps()
    ensures Overlapping(Atomic(Plain(Counters(1, 1), [0, 0], map[1 := Phase.Inside])), Single(DURING)) == 1
  {
    var s := Plain(Counters(1, 1), [0, 0], map[1 := Phase.Inside]);
    assert Atomic(s).inside == {1};
    hide Atomic, Single, Begun;
    SingleNone();
    var r1: seq<PlainStep> := [] + [Get(0)];
    var r2 := r1 + [Put(1, 0, 1)];
    var r3 := r2 + [Put(1, 1, 1)];
    BegunNext([], Get(0));
    BegunNext(r1, Put(1, 0, 1));
    BegunNext(r2, Put(1, 1, 1));
    BegunNext(r3, Get(1));
  }

  /** With two writers whose increments overlap, the second of two beginnings is not
      counted; and a read that one section overlaps is accepted, and has seen words of
      different states. */
  lemma TwoWritersTorn()
    ensures var s := PlainAfter(PlainInit([0, 0]), LOST);
            && PlainRuns(PlainInit([0, 0]), LOST)
            && s == Plain(Counters(1, 1), [0, 0], map[1 := Phase.Inside]) && !Consistent(Atomic(s))
            && PlainRuns(s, DURING) && Overlapping(Atomic(s), Single(DURING)) == 1
            && ReadOk(s.counters.end, PlainAfter(s, DURING).counters)
            && forall v :: !Snapshot([v, v], PlainSeen(s, DURING))
  {
    LostIncrement();
    DuringOverlaps();
    var s := Plain(Counters(1, 1), [0, 0], map[1 := Phase.Inside]);
    assert Atomic(s).inside == {1};
    hide PlainRuns, PlainAfter, PlainSeen, Overlapping, Single;
    PlainNone(s);
    var r1: seq<PlainStep> := [] + [Get(0)];
    var r2 := r1 + [Put(1, 0, 1)];
    var r3 := r2 + [Put(1, 1, 1)];
    PlainNext(s, [], Get(0));
    PlainNext(s, r1, Put(1, 0, 1));
    PlainNext(s, r2, Put(1, 1, 1));
    PlainNext(s, r3, Get(1));
    assert PlainAfter(s, r3).words == [1, 1];
    assert PlainSeen(s, DURING) == [(0, 0), (1, 1)];
    assert PlainSeen(s, DURING)[0] == (0, 0) && PlainSeen(s, DURING)[1] == (1, 1);
  }

  predicate WritersBelow(run: seq<PlainStep>, n: nat) {
    forall k :: 0 <= k < |run| ==> run[k].Get? || run[k].writer < n
  }

  /** A read that fewer than 2^32 sections overlap is not accepted unless it saw one
      state. */
  predicate Safe(words: seq<int>, before: seq<PlainStep>, read: seq<PlainStep>) {
    var s := PlainAfter(PlainInit(words), before);
    && PlainRuns(PlainInit(words), before)
    && PlainRuns(s, read)
    && Overlapping(Atomic(s), Single(read)) < TWO32
    && ReadOk(s.counters.end, PlainAfter(s, read).counters)
    ==> Snapshot(s.words, PlainSeen(s, read))
  }

  /** In every run of n writers. */
  ghost predicate AllSafe(n: nat) {
    forall words, before, read :: WritersBelow(before, n) && WritersBelow(read, n) ==> Safe(words, before, read)
  }

  lemma OneWriterSafe(words: seq<int>, before: seq<PlainStep>, read: seq<PlainStep>)
    requires WritersBelow(before, 1) && WritersBelow(read, 1)
    ensures Safe(words, before, read)
  {
    var s0 := PlainInit(words);
    var s := PlainAfter(s0, before);
    hide PlainAfter, PlainRuns, Overlapping, Atomic, Single, Snapshot, PlainSeen, RunsApart;
    if PlainRuns(s0, before) && PlainRuns(s, read) && Overlapping(Atomic(s), Single(read)) < TWO32 {
      OneWriterApart(s0, before, 0);
      OneWriterApart(s, read, 0);
      PlainSnapshot(words, before, read);
    }
  }

  lemma TwoWritersUnsafe()
    ensures WritersBelow(LOST, 2) && WritersBelow(DURING, 2) && !Safe([0, 0], LOST, DURING)
  {
    TwoWritersTorn();
    hide PlainAfter, PlainRuns, Overlapping, Atomic, Single, Snapshot, PlainSeen;
  }

  /** Loads and stores are as good as single steps if and only if there is no more than
      one writer. */
  lemma SafeExactly(n: nat)
    ensures AllSafe(n) <==> n <= 1
  {
    hide Safe;
    if n <= 1 {
      forall words, before, read | WritersBelow(before, n) && WritersBelow(read, n)
        ensures Safe(words, before, read)
      {
        OneWriterSafe(words, before, read);
      }
    } else {
      TwoWritersUnsafe();
      assert WritersBelow(LOST, n) && WritersBelow(DURING, n);
    }
  }
}
