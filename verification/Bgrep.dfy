/** bgrep: the Knuth-Morris-Pratt search for octets, with the pattern kept reversed. */
module Bgrep {
  import opened Machine

  /** A pattern: it has at least one octet. */
  type Pattern = s: seq<byte> | |s| > 0 witness [0]

  /** The first k octets of p are in t, and end there at index i. */
  predicate EndsAt(p: seq<byte>, t: seq<byte>, i: nat, k: nat) {
    k <= |p| && k <= i <= |t| && t[i - k..i] == p[..k]
  }

  /** The longest border of the first m octets of p, of length at most j. */
  function BorderUpTo(p: seq<byte>, m: nat, j: nat): nat {
    if j == 0 || EndsAt(p, p, m, j) then j else BorderUpTo(p, m, j - 1)
  }

  /** The length of the longest proper border of the first m octets of p: of what they
      both start and end with. */
  function Border(p: seq<byte>, m: nat): nat {
    if m == 0 then 0 else BorderUpTo(p, m, m - 1)
  }

  lemma EndsNone(p: seq<byte>, t: seq<byte>, i: nat)
    requires i <= |t|
    ensures EndsAt(p, t, i, 0)
  {
  }

  lemma {:induction false} BorderUpToLongest(p: seq<byte>, m: nat, j: nat)
    requires m <= |p|
    ensures var b := BorderUpTo(p, m, j);
            b <= j && EndsAt(p, p, m, b) && forall k :: b < k <= j ==> !EndsAt(p, p, m, k)
    decreases j
  {
    EndsNone(p, p, m);
    hide EndsAt;
    if j > 0 && !EndsAt(p, p, m, j) { BorderUpToLongest(p, m, j - 1); }
  }

  lemma BorderLongest(p: seq<byte>, m: nat)
    requires m <= |p|
    ensures var b := Border(p, m);
            && b <= m && (m > 0 ==> b < m) && EndsAt(p, p, m, b)
            && forall k :: b < k < m ==> !EndsAt(p, p, m, k)
  {
    EndsNone(p, p, m);
    hide EndsAt;
    if m > 0 { BorderUpToLongest(p, m, m - 1); }
  }

  /** The while loop of main: shorter and shorter prefixes, until one goes on with x. */
  function Fall(p: Pattern, m: nat, x: byte): (r: nat)
    requires m < |p|
    ensures r <= m
    decreases m
  {
    if m == 0 || x == p[m] then m
    else
      BorderLongest(p, m);
      Fall(p, Border(p, m), x)
  }

  /** What octet x does to a state, the length of the prefix matched; and whether it is
      reported. */
  function Next(p: Pattern, m: nat, x: byte): (r: nat)
    requires m < |p|
    ensures r < |p|
  {
    var f := Fall(p, m, x);
    BorderLongest(p, f);
    if x != p[f] then f else if f < |p| - 1 then f + 1 else Border(p, f)
  }

  predicate Hits(p: Pattern, m: nat, x: byte)
    requires m < |p|
  {
    Fall(p, m, x) == |p| - 1 && x == p[|p| - 1]
  }

  /** The state m at index a of t has become this at index i. */
  function State(p: Pattern, m: nat, t: seq<byte>, a: nat, i: nat): (r: nat)
    requires m < |p| && a <= i <= |t|
    ensures r < |p|
    decreases i
  {
    if i == a then m else Next(p, State(p, m, t, a, i - 1), t[i - 1])
  }

  /** There is a report at the octet before index i. */
  predicate HitsAt(p: Pattern, m: nat, t: seq<byte>, a: nat, i: nat)
    requires m < |p| && a < i <= |t|
  {
    Hits(p, State(p, m, t, a, i - 1), t[i - 1])
  }

  /** All reports up to index i of t, from the start. */
  function Reports(p: Pattern, t: seq<byte>, i: nat): seq<int>
    requires i <= |t|
  {
    if i == 0 then [] else Reports(p, t, i - 1) + if HitsAt(p, 0, t, 0, i) then [i - |p|] else []
  }

  /** Where the pattern occurs up to index i of t, from left to right. */
  function Occurrences(p: Pattern, t: seq<byte>, i: nat): seq<int>
    requires i <= |t|
  {
    if i == 0 then [] else Occurrences(p, t, i - 1) + if EndsAt(p, t, i, |p|) then [i - |p|] else []
  }

  predicate OccursAt(p: Pattern, t: seq<byte>, at: int) {
    0 <= at <= |t| - |p| && t[at..at + |p|] == p
  }

  lemma EndsOccurs(p: Pattern, t: seq<byte>, i: nat)
    requires i <= |t|
    ensures EndsAt(p, t, i, |p|) <==> |p| <= i && OccursAt(p, t, i - |p|)
  {
    assert p[..|p|] == p;
  }

  lemma {:induction false} OccurrencesExact(p: Pattern, t: seq<byte>, i: nat, at: int)
    requires i <= |t|
    ensures at in Occurrences(p, t, i) <==> 0 <= at <= i - |p| && OccursAt(p, t, at)
  {
    hide EndsAt, OccursAt;
    if i == 0 {
    } else {
      OccurrencesExact(p, t, i - 1, at);
      EndsOccurs(p, t, i);
    }
  }

  lemma {:induction false} OccurrencesAscend(p: Pattern, t: seq<byte>, i: nat, at: int)
    requires i <= |t| && at in Occurrences(p, t, i)
    ensures Occurrences(p, t, i)[0] <= at <= i - |p|
  {
    hide EndsAt;
    if at in Occurrences(p, t, i - 1) {
      OccurrencesAscend(p, t, i - 1, at);
    } else if Occurrences(p, t, i - 1) != [] {
      OccurrencesAscend(p, t, i - 1, Occurrences(p, t, i - 1)[0]);
    }
  }

  lemma {:induction false} ReportsExact(p: Pattern, t: seq<byte>, i: nat, at: int)
    requires i <= |t|
    ensures at in Reports(p, t, i) <==> 0 < at + |p| <= i && HitsAt(p, 0, t, 0, at + |p|)
  {
    hide HitsAt;
    if i == 0 {
    } else {
      ReportsExact(p, t, i - 1, at);
    }
  }

  /** m is the length of the longest prefix of p, short of p itself, that ends at i. */
  ghost predicate Matched(p: Pattern, t: seq<byte>, i: nat, m: nat) {
    m < |p| && EndsAt(p, t, i, m) && forall k :: m < k < |p| ==> !EndsAt(p, t, i, k)
  }

  /** One octet more is matched when it is the next of the pattern. */
  lemma EndsNext(p: Pattern, t: seq<byte>, i: nat, k: nat)
    requires 0 < k <= |p| && 0 < i <= |t|
    ensures EndsAt(p, t, i, k) <==> EndsAt(p, t, i - 1, k - 1) && t[i - 1] == p[k - 1]
  {
    assert p[..k] == p[..k - 1] + [p[k - 1]];
    if k <= i {
      assert t[i - k..i] == t[i - k..i - 1] + [t[i - 1]];
    }
  }

  /** What ends where m octets of p do is, if no longer, what those end with. */
  lemma EndsBoth(p: Pattern, t: seq<byte>, i: nat, m: nat, k: nat)
    requires EndsAt(p, t, i, m) && k <= m
    ensures EndsAt(p, t, i, k) <==> EndsAt(p, p, m, k)
  {
    assert p[..m][m - k..] == p[m - k..m];
    assert t[i - m..i][m - k..] == t[i - k..i];
  }

  /** Falling back skips no prefix that x could go on. */
  lemma {:induction false} FallLongest(p: Pattern, t: seq<byte>, i: nat, m: nat, x: byte)
    requires m < |p| && EndsAt(p, t, i, m)
    requires forall k :: m < k < |p| && EndsAt(p, t, i, k) ==> p[k] != x
    ensures var f := Fall(p, m, x);
            && EndsAt(p, t, i, f) && (f == 0 || x == p[f])
            && forall k :: f < k < |p| && EndsAt(p, t, i, k) ==> p[k] != x
    decreases m
  {
    hide EndsAt, Border;
    if m > 0 && x != p[m] {
      BorderLongest(p, m);
      forall k: nat | k < m ensures EndsAt(p, t, i, k) <==> EndsAt(p, p, m, k) { EndsBoth(p, t, i, m, k); }
      FallLongest(p, t, i, Border(p, m), x);
    }
  }

  /** So what x goes on is the longest prefix, or the pattern, that ends after it. */
  lemma FallNext(p: Pattern, t: seq<byte>, i: nat, m: nat)
    requires 0 < i <= |t| && Matched(p, t, i - 1, m)
    ensures var f := Fall(p, m, t[i - 1]);
            && (t[i - 1] == p[f] ==> EndsAt(p, t, i, f + 1))
            && (t[i - 1] != p[f] ==> f == 0 && !EndsAt(p, t, i, 1))
            && forall k :: f + 1 < k <= |p| ==> !EndsAt(p, t, i, k)
  {
    var x := t[i - 1];
    hide EndsAt, Fall;
    FallLongest(p, t, i - 1, m, x);
    var f := Fall(p, m, x);
    EndsNext(p, t, i, f + 1);
    forall k | f + 1 < k <= |p| ensures !EndsAt(p, t, i, k) {
      EndsNext(p, t, i, k);
      assert EndsAt(p, t, i - 1, k - 1) ==> p[k - 1] != x;
    }
  }

  /** A report is right, and so is the state after an octet that is not reported; after
      a report the state is the border of the pattern without its last octet. */
  lemma NextRight(p: Pattern, t: seq<byte>, i: nat, m: nat)
    requires 0 < i <= |t| && Matched(p, t, i - 1, m)
    ensures var r := Next(p, m, t[i - 1]);
            && (Hits(p, m, t[i - 1]) <==> EndsAt(p, t, i, |p|))
            && (if Hits(p, m, t[i - 1]) then r == Border(p, |p| - 1) else Matched(p, t, i, r))
  {
    EndsNone(p, t, i);
    FallNext(p, t, i, m);
    hide EndsAt, Fall, Border;
  }

  lemma StateNone(p: Pattern, m: nat, t: seq<byte>, a: nat)
    requires m < |p| && a <= |t|
    ensures State(p, m, t, a, a) == m
  {
  }

  lemma StateNext(p: Pattern, m: nat, t: seq<byte>, a: nat, i: nat)
    requires m < |p| && a < i <= |t|
    ensures State(p, m, t, a, i) == Next(p, State(p, m, t, a, i - 1), t[i - 1])
    ensures HitsAt(p, m, t, a, i) == Hits(p, State(p, m, t, a, i - 1), t[i - 1])
  {
  }

  /** As long as no occurrence has ended, nothing is reported and the state is right. */
  lemma {:induction false} QuietUntil(p: Pattern, t: seq<byte>, a: nat, m: nat, i: nat)
    requires a <= i <= |t| && m < |p| && Matched(p, t, a, m)
    requires forall j :: a < j <= i ==> !EndsAt(p, t, j, |p|)
    ensures Matched(p, t, i, State(p, m, t, a, i))
    ensures forall j :: a < j <= i ==> !HitsAt(p, m, t, a, j)
    decreases i
  {
    hide *;
    if i == a {
      StateNone(p, m, t, a);
    } else {
      QuietUntil(p, t, a, m, i - 1);
      NextRight(p, t, i, State(p, m, t, a, i - 1));
      StateNext(p, m, t, a, i);
    }
  }

  /** And the first occurrence to end is reported. */
  lemma FirstHit(p: Pattern, t: seq<byte>, a: nat, m: nat, i: nat)
    requires a < i <= |t| && m < |p| && Matched(p, t, a, m) && EndsAt(p, t, i, |p|)
    requires forall j :: a < j < i ==> !EndsAt(p, t, j, |p|)
    ensures HitsAt(p, m, t, a, i) && State(p, m, t, a, i) == Border(p, |p| - 1)
    ensures forall j :: a < j < i ==> !HitsAt(p, m, t, a, j)
  {
    hide *;
    QuietUntil(p, t, a, m, i - 1);
    NextRight(p, t, i, State(p, m, t, a, i - 1));
    StateNext(p, m, t, a, i);
  }

  /** At the start nothing is matched. */
  lemma MatchedStart(p: Pattern, t: seq<byte>)
    ensures Matched(p, t, 0, 0)
  {
  }

  lemma ReportsNext(p: Pattern, t: seq<byte>, i: nat)
    requires i <= |t|
    ensures i == 0 ==> Reports(p, t, i) == Occurrences(p, t, i) == []
    ensures i > 0 ==>
              && Reports(p, t, i) == Reports(p, t, i - 1) + (if HitsAt(p, 0, t, 0, i) then [i - |p|] else [])
              && Occurrences(p, t, i) == Occurrences(p, t, i - 1) + if EndsAt(p, t, i, |p|) then [i - |p|] else []
  {
    hide HitsAt, EndsAt;
  }

  /** Nothing is reported if and only if the pattern does not occur; and what is
      reported first is its leftmost occurrence. */
  lemma {:induction false} FirstReport(p: Pattern, t: seq<byte>, i: nat)
    requires i <= |t|
    ensures Reports(p, t, i) == [] <==> Occurrences(p, t, i) == []
    ensures Reports(p, t, i) != [] ==> Reports(p, t, i)[0] == Occurrences(p, t, i)[0]
  {
    hide *;
    ReportsNext(p, t, i);
    if i == 0 {
    } else {
      FirstReport(p, t, i - 1);
      if Reports(p, t, i - 1) == [] {
        forall j | 0 < j <= i - 1 ensures !EndsAt(p, t, j, |p|) { NoneBefore(p, t, i - 1, j); }
        MatchedStart(p, t);
        if EndsAt(p, t, i, |p|) {
          FirstHit(p, t, 0, 0, i);
        } else {
          QuietUntil(p, t, 0, 0, i);
        }
      }
    }
  }

  /** In other words: nothing is reported if and only if the pattern is nowhere in the
      text, and what is reported first is where it is first. */
  lemma LeftmostFirst(p: Pattern, t: seq<byte>)
    ensures var r := Reports(p, t, |t|);
            if r == [] then forall at :: !OccursAt(p, t, at)
            else OccursAt(p, t, r[0]) && forall at :: OccursAt(p, t, at) ==> r[0] <= at
  {
    FirstReport(p, t, |t|);
    forall at: int
      ensures OccursAt(p, t, at) <==> at in Occurrences(p, t, |t|)
      ensures at in Occurrences(p, t, |t|) ==> Occurrences(p, t, |t|)[0] <= at
    {
      OccurrencesExact(p, t, |t|, at);
      if at in Occurrences(p, t, |t|) { OccurrencesAscend(p, t, |t|, at); }
    }
    hide Reports, Occurrences, OccursAt;
  }

  lemma {:induction false} NoneBefore(p: Pattern, t: seq<byte>, i: nat, j: nat)
    requires 0 < j <= i <= |t| && Occurrences(p, t, i) == []
    ensures !EndsAt(p, t, j, |p|)
  {
    hide EndsAt;
    if j == i {
    } else {
      NoneBefore(p, t, i - 1, j);
    }
  }

  /** If leaving out its last octet does not change the border of the pattern, the state
      is right after a report, too. */
  lemma AfterHit(p: Pattern, t: seq<byte>, i: nat)
    requires i <= |t| && EndsAt(p, t, i, |p|)
    ensures Matched(p, t, i, Border(p, |p|))
  {
    BorderLongest(p, |p|);
    hide Border;
    forall k: nat | k <= |p| ensures EndsAt(p, t, i, k) <==> EndsAt(p, p, |p|, k) { EndsBoth(p, t, i, |p|, k); }
    hide EndsAt;
  }

  /** Then the state is right throughout, and every report. */
  lemma {:induction false} AllRight(p: Pattern, t: seq<byte>, i: nat)
    requires i <= |t| && Border(p, |p|) == Border(p, |p| - 1)
    ensures Matched(p, t, i, State(p, 0, t, 0, i)) && Reports(p, t, i) == Occurrences(p, t, i)
  {
    if i == 0 {
      MatchedStart(p, t);
    } else {
      AllRight(p, t, i - 1);
      assert Reports(p, t, i) == Reports(p, t, i - 1) + if HitsAt(p, 0, t, 0, i) then [i - |p|] else [];
      assert Occurrences(p, t, i) == Occurrences(p, t, i - 1) + if EndsAt(p, t, i, |p|) then [i - |p|] else [];
      hide *;
      NextRight(p, t, i, State(p, 0, t, 0, i - 1));
      StateNext(p, 0, t, 0, i);
      if EndsAt(p, t, i, |p|) { AfterHit(p, t, i); }
    }
  }

  /** The state goes on from wherever it has got to. */
  lemma {:induction false} StateGoesOn(p: Pattern, m: nat, t: seq<byte>, a: nat, b: nat, i: nat)
    requires m < |p| && a <= b <= i <= |t|
    ensures State(p, m, t, a, i) == State(p, State(p, m, t, a, b), t, b, i)
    decreases i
  {
    hide Next;
    if i == b {
    } else {
      StateGoesOn(p, m, t, a, b, i - 1);
    }
  }

  /** Only the octets read matter, not what was before them. */
  lemma {:induction false} StateSame(p: Pattern, m: nat, x: seq<byte>, y: seq<byte>, s: seq<byte>, n: nat)
    requires m < |p| && n <= |s|
    ensures State(p, m, x + s, |x|, |x| + n) == State(p, m, y + s, |y|, |y| + n)
    ensures n > 0 ==> HitsAt(p, m, x + s, |x|, |x| + n) == HitsAt(p, m, y + s, |y|, |y| + n)
  {
    hide Next, Hits;
    if n == 0 {
    } else {
      StateSame(p, m, x, y, s, n - 1);
    }
  }

  /** The first report of a text that starts with the pattern. */
  lemma PatternFirst(p: Pattern, s: seq<byte>)
    ensures HitsAt(p, 0, p + s, 0, |p|) && State(p, 0, p + s, 0, |p|) == Border(p, |p| - 1)
  {
    var t := p + s;
    MatchedStart(p, t);
    assert EndsAt(p, t, |p|, |p|);
    hide Next, Hits, Matched, State, HitsAt, Border;
    FirstHit(p, t, 0, 0, |p|);
  }

  /** A prefix of the pattern is what is matched after it. */
  lemma PrefixMatched(p: Pattern, c: nat, s: seq<byte>)
    requires c < |p|
    ensures Matched(p, p[..c] + s, c, c)
  {
    assert EndsAt(p, p[..c] + s, c, c);
  }

  lemma BorderBound(p: Pattern)
    ensures Border(p, |p| - 1) < |p| && Border(p, |p|) < |p|
  {
    hide *;
    BorderLongest(p, |p| - 1);
    BorderLongest(p, |p|);
  }

  /** After the pattern itself, the state is as after its border without the last octet. */
  lemma AfterPattern(p: Pattern, s: seq<byte>, n: nat)
    requires 0 < n <= |s|
    ensures var c := Border(p, |p| - 1);
            c < |p| && (HitsAt(p, 0, p + s, 0, |p| + n) <==> HitsAt(p, c, p[..c] + s, c, c + n))
  {
    hide *;
    var t, c := p + s, Border(p, |p| - 1);
    BorderBound(p);
    PatternFirst(p, s);
    StateSame(p, c, p, p[..c], s, n);
    StateGoesOn(p, 0, t, 0, |p|, |p| + n - 1);
    StateNext(p, 0, t, 0, |p| + n);
    StateNext(p, c, t, |p|, |p| + n);
  }

  lemma TooShort(p: Pattern, t: seq<byte>, j: nat)
    requires j < |p|
    ensures !EndsAt(p, t, j, |p|)
  {
  }

  lemma EndsWhole(p: Pattern)
    ensures EndsAt(p, p, |p|, |p|)
  {
  }

  lemma Overlap(p: seq<byte>, d: nat)
    requires d <= |p|
    ensures (p + p[d..])[|p| - d..|p| - d + |p|] == p[|p| - d..] + p[d..]
  {
  }

  lemma SameEnd(x: seq<byte>, y: seq<byte>, r: seq<byte>)
    requires |x| == |y|
    ensures x + r == y + r <==> x == y
  {
    assert (x + r)[..|x|] == x && (y + r)[..|y|] == y;
  }

  lemma Whole(p: seq<byte>, d: nat)
    requires d <= |p|
    ensures p[..d] + p[d..] == p && p[..|p|] == p && p[|p| - d..|p|] == p[|p| - d..]
  {
  }

  /** p occurs where its border of length d goes on with the rest of p. */
  lemma OccursAgain(p: Pattern, d: nat)
    requires d <= |p|
    ensures |p| - d in Occurrences(p, p + p[d..], |p + p[d..]|) <==> EndsAt(p, p, |p|, d)
  {
    hide Occurrences;
    assert OccursAt(p, p + p[d..], |p| - d) <==> (p + p[d..])[|p| - d..|p| - d + |p|] == p;
    OccurrencesExact(p, p + p[d..], |p + p[d..]|, |p| - d);
    Overlap(p, d);
    Whole(p, d);
    SameEnd(p[|p| - d..], p[..d], p[d..]);
  }

  /** The rest of the pattern is read from a shorter border: no report. */
  lemma NoneFromShorter(p: Pattern, s: seq<byte>)
    requires s != [] && Border(p, |p| - 1) + |s| < |p|
    ensures !HitsAt(p, 0, p + s, 0, |p| + |s|)
  {
    hide *;
    var c := Border(p, |p| - 1);
    PrefixMatched(p, c, s);
    forall j | c < j <= c + |s| ensures !EndsAt(p, p[..c] + s, j, |p|) { TooShort(p, p[..c] + s, j); }
    QuietUntil(p, p[..c] + s, c, c, c + |s|);
    AfterPattern(p, s, |s|);
  }

  /** The rest of the pattern is read from the border the state is left with: a report. */
  lemma OneFromBorder(p: Pattern, s: seq<byte>)
    requires var c := Border(p, |p| - 1); c < |p| && p[..c] + s == p
    ensures HitsAt(p, 0, p + s, 0, |p| + |s|)
  {
    hide *;
    var c := Border(p, |p| - 1);
    EndsWhole(p);
    PrefixMatched(p, c, s);
    forall j | c < j < |p| ensures !EndsAt(p, p, j, |p|) { TooShort(p, p, j); }
    FirstHit(p, p, c, c, |p|);
    AfterPattern(p, s, |s|);
  }

  /** A pattern and again its octets from index k on. */
  function Twice(p: Pattern, k: nat): seq<byte>
    requires k <= |p|
  {
    p + p[k..]
  }

  /** If the border of the pattern is longer than without its last octet, an occurrence
      is missed. */
  lemma Missed(p: Pattern)
    requires Border(p, |p| - 1) < Border(p, |p|)
    ensures Border(p, |p|) < |p|
    ensures var t, at := Twice(p, Border(p, |p|)), |p| - Border(p, |p|);
            at in Occurrences(p, t, |t|) && at !in Reports(p, t, |t|)
  {
    hide Border, Occurrences, Reports, HitsAt, EndsAt;
    var d := Border(p, |p|);
    BorderLongest(p, |p|);
    OccursAgain(p, d);
    NoneFromShorter(p, p[d..]);
    ReportsExact(p, p + p[d..], |p + p[d..]|, |p| - d);
  }

  /** If it is shorter, something is reported that is no occurrence. */
  lemma FalseAlarm(p: Pattern)
    requires Border(p, |p|) < Border(p, |p| - 1)
    ensures Border(p, |p| - 1) < |p|
    ensures var t, at := Twice(p, Border(p, |p| - 1)), |p| - Border(p, |p| - 1);
            at !in Occurrences(p, t, |t|) && at in Reports(p, t, |t|)
  {
    hide Border, Occurrences, Reports, HitsAt, EndsAt;
    var c := Border(p, |p| - 1);
    BorderLongest(p, |p|);
    BorderBound(p);
    OccursAgain(p, c);
    Whole(p, c);
    OneFromBorder(p, p[c..]);
    ReportsExact(p, p + p[c..], |p + p[c..]|, |p| - c);
  }

  /** The pattern a a b, in the text a a b a b: the second report, at 2, is false. */
  lemma FalseAlarmAab()
    ensures var p: Pattern, t := [0, 0, 1], [0, 0, 1, 0, 1];
            2 in Reports(p, t, 5) && 2 !in Occurrences(p, t, 5)
  {
    var p: Pattern := [0, 0, 1];
    assert !EndsAt(p, p, 3, 2) && !EndsAt(p, p, 3, 1) by { assert p[2..3][0] != p[..1][0] && p[1..3][1] != p[..2][1]; }
    assert Border(p, 3) == 0;
    assert EndsAt(p, p, 2, 1);
    assert Border(p, 2) == 1;
    assert Twice(p, 1) == [0, 0, 1, 0, 1];
    FalseAlarm(p);
  }

  /** The pattern a b a, in the text a b a b a: the occurrence at 2 is missed. */
  lemma MissedAba()
    ensures var p: Pattern, t := [0, 1, 0], [0, 1, 0, 1, 0];
            2 !in Reports(p, t, 5) && 2 in Occurrences(p, t, 5)
  {
    var p: Pattern := [0, 1, 0];
    assert !EndsAt(p, p, 3, 2) by { assert p[1..3][0] != p[..2][0]; }
    assert EndsAt(p, p, 3, 1);
    assert Border(p, 3) == 1;
    assert !EndsAt(p, p, 2, 1) by { assert p[1..2][0] != p[..1][0]; }
    assert Border(p, 2) == 0;
    assert Twice(p, 1) == [0, 1, 0, 1, 0];
    Missed(p);
  }

  /** All reports are right, for every text, if and only if leaving out its last octet
      does not change the border of the pattern. */
  lemma RightExactly(p: Pattern)
    ensures (forall t :: Reports(p, t, |t|) == Occurrences(p, t, |t|)) <==> Border(p, |p|) == Border(p, |p| - 1)
  {
    hide Reports, Occurrences, Border;
    if Border(p, |p|) == Border(p, |p| - 1) {
      forall t ensures Reports(p, t, |t|) == Occurrences(p, t, |t|) { AllRight(p, t, |t|); }
    } else if Border(p, |p|) < Border(p, |p| - 1) {
      FalseAlarm(p);
    } else {
      Missed(p);
    }
  }

  /** The pattern as it is kept, to be different from itself in memory. */
  function Reversed(p: seq<byte>): seq<byte> {
    seq(|p|, i requires 0 <= i < |p| => p[|p| - 1 - i])
  }

  /** The loop of main that exchanges the octets. */
  method ReverseInPlace(lookFor: array<byte>)
    modifies lookFor
    ensures lookFor[..] == Reversed(old(lookFor[..]))
  {
    var p, q := 0, lookFor.Length - 1;
    while p < q
      invariant 0 <= p <= q + 2 && p + q == lookFor.Length - 1
      invariant forall k :: 0 <= k < p || q < k < lookFor.Length ==> lookFor[k] == old(lookFor[lookFor.Length - 1 - k])
      invariant forall k :: p <= k <= q ==> lookFor[k] == old(lookFor[k])
    {
      lookFor[p], lookFor[q] := lookFor[q], lookFor[p];
      p, q := p + 1, q - 1;
    }
  }

  /** Reversed, a border is what comes again later. */
  lemma ReversedBorder(p: seq<byte>, i: nat, j: nat)
    requires i < j <= |p|
    ensures var r := Reversed(p);
            r[i..i + |p| - j] == r[j..] <==> EndsAt(p, p, |p| - i, |p| - j)
  {
    var r, m, k := Reversed(p), |p| - i, |p| - j;
    assert forall l :: 0 <= l < k ==> r[i..i + k][l] == p[m - 1 - l] && r[j..][l] == p[k - 1 - l];
    if r[i..i + k] == r[j..] {
      forall l | 0 <= l < k ensures p[m - k + l] == p[l] {
        assert r[i..i + k][k - 1 - l] == r[j..][k - 1 - l];
      }
      assert p[m - k..m] == p[..k];
    }
    if EndsAt(p, p, m, k) {
      forall l | 0 <= l < k ensures r[i..i + k][l] == r[j..][l] {
        assert p[m - k..m][k - 1 - l] == p[..k][k - 1 - l];
      }
    }
  }

  /** The borders longer than a length have all been tried. */
  lemma {:induction false} BorderFound(p: seq<byte>, m: nat, j: nat, b: nat)
    requires b <= j && m <= |p| && (b == 0 || EndsAt(p, p, m, b))
    requires forall k :: b < k <= j ==> !EndsAt(p, p, m, k)
    ensures BorderUpTo(p, m, j) == b
    decreases j
  {
    hide EndsAt;
    if b == j {
    } else {
      BorderFound(p, m, j - 1, b);
    }
  }

  lemma LinkFound(p: Pattern, m: nat, b: nat)
    requires m <= |p| && (b < m || b == 0) && (b == 0 || EndsAt(p, p, m, b))
    requires forall k :: b < k < m ==> !EndsAt(p, p, m, k)
    ensures Border(p, m) == b
  {
    hide EndsAt;
    if m > 0 { BorderFound(p, m, m - 1, b); }
  }

  /** The inner loop of make_kmp_links, for look_for_link[i]. */
  method LinkAt(lookFor: seq<byte>, i: nat, ghost p: Pattern) returns (link: nat)
    requires lookFor == Reversed(p) && i < |p|
    ensures link == |p| - 1 - Border(p, |p| - 1 - i)
  {
    var n := |lookFor|;
    ghost var m := n - 1 - i;
    assert n == |p|;
    hide Border, BorderUpTo, EndsAt, Reversed;
    link := n - 1;
    var j := i + 2;
    while j < n
      invariant i + 2 <= j && (j <= n || m == 0) && link == n - 1
      invariant forall k: nat :: n - j < k < m ==> !EndsAt(p, p, m, k)
    {
      ReversedBorder(p, i + 1, j);
      if lookFor[i + 1..i + 1 + n - j] == lookFor[j..] {
        LinkFound(p, m, n - j);
        return j - 1;
      }
      j := j + 1;
    }
    LinkFound(p, m, 0);
  }

  /** make_kmp_links: in terms of the reversed pattern, look_for_link[i] is where to go
      on after the octets beyond i have matched. */
  method MakeLinks(lookFor: seq<byte>, ghost p: Pattern) returns (link: array<nat>)
    requires lookFor == Reversed(p)
    ensures fresh(link) && link.Length == |p|
    ensures forall i :: 0 <= i < |p| ==> link[i] == |p| - 1 - Border(p, |p| - 1 - i)
  {
    assert |lookFor| == |p|;
    hide Border, Reversed;
    link := new nat[|lookFor|];
    for i := 0 to |lookFor|
      invariant forall k :: 0 <= k < i ==> link[k] == |p| - 1 - Border(p, |p| - 1 - k)
    {
      link[i] := LinkAt(lookFor, i, p);
    }
  }

  lemma NextIs(p: Pattern, m: nat, x: byte, f: nat)
    requires m < |p| && f < |p| && Fall(p, m, x) == f && (f == 0 || x == p[f])
    ensures Fall(p, f, x) == f
    ensures Next(p, m, x) == if x != p[f] then f else if f < |p| - 1 then f + 1 else Border(p, f)
    ensures Hits(p, m, x) <==> f == |p| - 1 && x == p[f]
  {
  }

  /** The variables of the search: o counts the octets read, p is an index into the
      reversed pattern. text is what has been read. */
  class Search {
    const lookFor: seq<byte>
    const link: seq<nat>
    var o: nat
    var p: nat
    ghost const pattern: Pattern
    ghost var text: seq<byte>

    ghost predicate Linked() {
      && lookFor == Reversed(pattern) && |link| == |pattern|
      && (forall i :: 0 <= i < |link| ==> link[i] == |pattern| - 1 - Border(pattern, |pattern| - 1 - i))
    }

    ghost predicate Valid()
      reads this
    {
      Linked() && o == |text| && p == |pattern| - 1 - State(pattern, 0, text, 0, |text|)
    }

    constructor (lookFor: seq<byte>, link: seq<nat>, ghost pattern: Pattern)
      requires lookFor == Reversed(pattern) && |link| == |pattern|
      requires forall i :: 0 <= i < |link| ==> link[i] == |pattern| - 1 - Border(pattern, |pattern| - 1 - i)
      ensures Valid() && this.pattern == pattern && text == []
    {
      this.lookFor, this.link, this.pattern := lookFor, link, pattern;
      o, p, text := 0, |lookFor| - 1, [];
    }

    /** The while loop: back to where x goes on. */
    method FallBack(x: byte)
      requires Linked() && p < |pattern|
      modifies this`p
      ensures p < |pattern|
      ensures var f := |pattern| - 1 - p;
              Fall(pattern, |pattern| - 1 - old(p), x) == f && (f == 0 || x == pattern[f])
    {
      LinksAre();
      hide *;
      while p != |lookFor| - 1 && x != lookFor[p]
        invariant p < |lookFor|
        invariant Fall(pattern, |lookFor| - 1 - p, x) == Fall(pattern, |lookFor| - 1 - old(p), x)
        decreases |lookFor| - 1 - p
      {
        FallStep(pattern, |lookFor| - 1 - p, x);
        p := link[p];
      }
      FallDone(pattern, |lookFor| - 1 - p, x);
    }

    /** The body of the innermost loop of main. */
    method Advance(x: byte) returns (found: seq<int>)
      requires Linked() && p < |pattern|
      modifies this`o, this`p
      ensures o == old(o) + 1 && p == |pattern| - 1 - Next(pattern, |pattern| - 1 - old(p), x)
      ensures found == if Hits(pattern, |pattern| - 1 - old(p), x) then [o - |pattern|] else []
    {
      LinksAre();
      hide *;
      o := o + 1;
      FallBack(x);
      NextIs(pattern, |pattern| - 1 - old(p), x, |pattern| - 1 - p);
      found := [];
      if x == lookFor[p] {
        if p == 0 {
          found := [o - |lookFor|];
          p := link[p];
        } else {
          p := p - 1;
        }
      }
    }

    /** What the search does for one octet. */
    method Step(x: byte) returns (found: seq<int>)
      requires Valid()
      modifies this
      ensures Valid() && text == old(text) + [x]
      ensures Reports(pattern, text, |text|) == Reports(pattern, old(text), |old(text)|) + found
    {
      hide Linked, State, Next, Hits, Reports;
      TextGrows(pattern, text, x);
      found := Advance(x);
      text := text + [x];
    }

    /** The search of main, over what fread makes of the input. */
    method Scan(chunks: seq<seq<byte>>) returns (found: seq<int>)
      requires Valid()
      modifies this
      ensures Valid() && text == old(text) + Joined(chunks)
      ensures Reports(pattern, text, |text|) == Reports(pattern, old(text), |old(text)|) + found
    {
      hide Valid, Reports;
      found := [];
      for c := 0 to |chunks|
        invariant Valid() && text == old(text) + Joined(chunks[..c])
        invariant Reports(pattern, text, |text|) == Reports(pattern, old(text), |old(text)|) + found
      {
        for i := 0 to |chunks[c]|
          invariant Valid() && text == old(text) + Joined(chunks[..c]) + chunks[c][..i]
          invariant Reports(pattern, text, |text|) == Reports(pattern, old(text), |old(text)|) + found
        {
          var more := Step(chunks[c][i]);
          found := found + more;
          assert chunks[c][..i + 1] == chunks[c][..i] + [chunks[c][i]];
        }
        assert chunks[c][..|chunks[c]|] == chunks[c];
        JoinedNext(chunks, c);
      }
      assert chunks[..|chunks|] == chunks;
    }

    lemma LinksAre()
      requires Linked()
      ensures |lookFor| == |pattern| == |link|
      ensures forall i :: 0 <= i < |link| ==> link[i] == |pattern| - 1 - Border(pattern, |pattern| - 1 - i)
      ensures forall i :: 0 <= i < |link| ==> lookFor[i] == pattern[|pattern| - 1 - i]
    {
    }
  }

  /** What main does before the search. */
  method Prepare(look: array<byte>) returns (search: Search)
    requires look.Length > 0
    modifies look
    ensures fresh(search) && search.Valid() && search.pattern == old(look[..]) && search.text == []
  {
    ghost var pattern := look[..];
    ReverseInPlace(look);
    assert |Reversed(pattern)| == |pattern|;
    hide *;
    var link := MakeLinks(look[..], pattern);
    search := new Search(look[..], link[..], pattern);
  }

  /** What the chunks make together. */
  function Joined(chunks: seq<seq<byte>>): seq<byte> {
    if chunks == [] then [] else Joined(chunks[..|chunks| - 1]) + chunks[|chunks| - 1]
  }

  lemma JoinedNext(chunks: seq<seq<byte>>, c: nat)
    requires c < |chunks|
    ensures Joined(chunks[..c + 1]) == Joined(chunks[..c]) + chunks[c]
  {
    assert chunks[..c + 1][..c] == chunks[..c];
  }

  lemma FallStep(p: Pattern, m: nat, x: byte)
    requires 0 < m < |p| && x != p[m]
    ensures Border(p, m) < m && Fall(p, m, x) == Fall(p, Border(p, m), x)
  {
    BorderLongest(p, m);
  }

  lemma FallDone(p: Pattern, m: nat, x: byte)
    requires m < |p| && (m == 0 || x == p[m])
    ensures Fall(p, m, x) == m
  {
  }

  /** One octet more read. */
  lemma TextGrows(p: Pattern, t: seq<byte>, x: byte)
    ensures var u, m := t + [x], State(p, 0, t, 0, |t|);
            && State(p, 0, u, 0, |u|) == Next(p, m, x)
            && Reports(p, u, |u|) == Reports(p, t, |t|) + if Hits(p, m, x) then [|u| - |p|] else []
  {
    StatePrefix(p, t, [x], |t|);
    hide Next, Hits;
  }

  lemma {:induction false} StatePrefix(p: Pattern, t: seq<byte>, s: seq<byte>, i: nat)
    requires i <= |t|
    ensures State(p, 0, t + s, 0, i) == State(p, 0, t, 0, i) && Reports(p, t + s, i) == Reports(p, t, i)
  {
    hide Next, Hits;
    if i == 0 {
    } else {
      StatePrefix(p, t, s, i - 1);
    }
  }
}
