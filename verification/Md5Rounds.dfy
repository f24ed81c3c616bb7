/** MD5_transform, against the step definition of section 3.4 of RFC 1321. */
module Md5Rounds {
  import opened Machine

  /** The auxiliary functions of section 3.4. */
  function F(x: word, y: word, z: word): word { (x & y) | (!x & z) }

  function G(x: word, y: word, z: word): word { (x & z) | (y & !z) }

  function H(x: word, y: word, z: word): word { x ^ y ^ z }

  function I(x: word, y: word, z: word): word { y ^ (x | !z) }

  function Rotate(w: word, s: nat): word
    requires 0 < s < 32
  {
    (w << s) | (w >> (32 - s))
  }

  /** The table of section 3.4: T(i) is the integer part of 4294967296 times
      abs(sin(i + 1)). */
  function T(i: nat): word {
    if i < 16 then T1(i) else if i < 32 then T2(i - 16) else if i < 48 then T3(i - 32) else T4(i - 48)
  }

  function T1(i: nat): word {
    match i
    case 0 => 0xd76aa478 case 1 => 0xe8c7b756 case 2 => 0x242070db case 3 => 0xc1bdceee
    case 4 => 0xf57c0faf case 5 => 0x4787c62a case 6 => 0xa8304613 case 7 => 0xfd469501
    case 8 => 0x698098d8 case 9 => 0x8b44f7af case 10 => 0xffff5bb1 case 11 => 0x895cd7be
    case 12 => 0x6b901122 case 13 => 0xfd987193 case 14 => 0xa679438e case _ => 0x49b40821
  }

  function T2(i: nat): word {
    match i
    case 0 => 0xf61e2562 case 1 => 0xc040b340 case 2 => 0x265e5a51 case 3 => 0xe9b6c7aa
    case 4 => 0xd62f105d case 5 => 0x02441453 case 6 => 0xd8a1e681 case 7 => 0xe7d3fbc8
    case 8 => 0x21e1cde6 case 9 => 0xc33707d6 case 10 => 0xf4d50d87 case 11 => 0x455a14ed
    case 12 => 0xa9e3e905 case 13 => 0xfcefa3f8 case 14 => 0x676f02d9 case _ => 0x8d2a4c8a
  }

  function T3(i: nat): word {
    match i
    case 0 => 0xfffa3942 case 1 => 0x8771f681 case 2 => 0x6d9d6122 case 3 => 0xfde5380c
    case 4 => 0xa4beea44 case 5 => 0x4bdecfa9 case 6 => 0xf6bb4b60 case 7 => 0xbebfbc70
    case 8 => 0x289b7ec6 case 9 => 0xeaa127fa case 10 => 0xd4ef3085 case 11 => 0x04881d05
    case 12 => 0xd9d4d039 case 13 => 0xe6db99e5 case 14 => 0x1fa27cf8 case _ => 0xc4ac5665
  }

  function T4(i: nat): word {
    match i
    case 0 => 0xf4292244 case 1 => 0x432aff97 case 2 => 0xab9423a7 case 3 => 0xfc93a039
    case 4 => 0x655b59c3 case 5 => 0x8f0ccc92 case 6 => 0xffeff47d case 7 => 0x85845dd1
    case 8 => 0x6fa87e4f case 9 => 0xfe2ce6e0 case 10 => 0xa3014314 case 11 => 0x4e0811a1
    case 12 => 0xf7537e82 case 13 => 0xbd3af235 case 14 => 0x2ad7d2bb case _ => 0xeb86d391
  }

  /** What step i of section 3.4 uses: its auxiliary function, its word of the
      block, and its rotation. */
  function Auxiliary(i: nat, x: word, y: word, z: word): word {
    if i < 16 then F(x, y, z) else if i < 32 then G(x, y, z) else if i < 48 then H(x, y, z) else I(x, y, z)
  }

  function Index(i: nat): (k: nat)
    ensures k < 16
  {
    if i < 16 then i else if i < 32 then (5 * i + 1) % 16 else if i < 48 then (3 * i + 5) % 16 else 7 * i % 16
  }

  function Rotation(i: nat): (s: nat)
    ensures 0 < s < 32
  {
    var t := i % 4;
    if i < 16 then (if t == 0 then 7 else if t == 1 then 12 else if t == 2 then 17 else 22)
    else if i < 32 then (if t == 0 then 5 else if t == 1 then 9 else if t == 2 then 14 else 20)
    else if i < 48 then (if t == 0 then 4 else if t == 1 then 11 else if t == 2 then 16 else 23)
    else (if t == 0 then 6 else if t == 1 then 10 else if t == 2 then 15 else 21)
  }

  /** The four chaining variables. */
  datatype State = State(a: word, b: word, c: word, d: word)

  type Words = x: seq<word> | |x| == 16 witness seq(16, _ => 0)

  /** The operation a = b + ((a + f + X[k] + T[i]) <<< s). */
  function Operation(a: word, b: word, f: word, k: word, t: word, s: nat): word
    requires 0 < s < 32
  {
    b + Rotate(a + f + k + t, s)
  }

  /** Step i: [abcd k s i], after which the registers are renamed. */
  function Step(x: Words, st: State, i: nat): State {
    State(st.d,
          Operation(st.a, st.b, Auxiliary(i, st.b, st.c, st.d), x[Index(i)], T(i), Rotation(i)),
          st.b, st.c)
  }

  /** The first n steps of a block. */
  function Steps(x: Words, st: State, n: nat): State {
    if n == 0 then st else Step(x, Steps(x, st, n - 1), n - 1)
  }

  /** One block: its sixty-four steps, added to the chaining variables. */
  function Compress(st: State, x: Words): State {
    Plus(st, Steps(x, st, 64))
  }

  function Plus(s: State, r: State): State {
    State(Sum(s.a, r.a), Sum(s.b, r.b), Sum(s.c, r.c), Sum(s.d, r.d))
  }

  /** Addition modulo 2^32. */
  function Sum(x: word, y: word): word { x + y }

  /** The macros F1 to F4 and MD5STEP. */
  function F1(x: word, y: word, z: word): word { z ^ (x & (y ^ z)) }

  function F2(x: word, y: word, z: word): word { F1(z, x, y) }

  function F3(x: word, y: word, z: word): word { x ^ y ^ z }

  function F4(x: word, y: word, z: word): word { y ^ (x | !z) }

  function Md5Step(f: word, w: word, x: word, k: word, t: word, s: nat): word
    requires 0 < s < 32
  {
    var data := k + t;
    Rotate(w + (f + data), s) + x
  }

  /** Choosing the bits of y or z by those of x, with one operator less. */
  lemma Choose(x: word, y: word, z: word)
    ensures z ^ (x & (y ^ z)) == (x & y) | (!x & z)
  {
  }

  lemma Reorder(x: word, y: word, z: word)
    ensures (z & x) | (!z & y) == (x & z) | (y & !z)
  {
  }

  lemma MacroF1(x: word, y: word, z: word)
    ensures F1(x, y, z) == F(x, y, z)
  {
    Choose(x, y, z);
  }

  lemma MacroF2(x: word, y: word, z: word)
    ensures F2(x, y, z) == G(x, y, z)
  {
    Choose(z, x, y);
    Reorder(x, y, z);
  }

  /** The macros compute the auxiliary functions. */
  lemma Macros()
    ensures forall x, y, z :: F1(x, y, z) == F(x, y, z)
    ensures forall x, y, z :: F2(x, y, z) == G(x, y, z)
    ensures forall x, y, z :: F3(x, y, z) == H(x, y, z)
    ensures forall x, y, z :: F4(x, y, z) == I(x, y, z)
  {
    forall x, y, z
      ensures F1(x, y, z) == F(x, y, z) && F2(x, y, z) == G(x, y, z)
    {
      MacroF1(x, y, z);
      MacroF2(x, y, z);
    }
  }

  lemma SumOrder(a: word, f: word, x: word, t: word)
    ensures a + (f + (x + t)) == a + f + x + t
  {
  }

  lemma Commute(a: word, b: word)
    ensures a + b == b + a
  {
  }

  /** One line of the macro is one step. */
  function Line(x: Words, i: nat, w: word, x1: word, y: word, z: word): word {
    Md5Step(Auxiliary(i, x1, y, z), w, x1, x[Index(i)], T(i), Rotation(i))
  }

  lemma StepOrder(f: word, w: word, x: word, k: word, t: word, s: nat)
    requires 0 < s < 32
    ensures Md5Step(f, w, x, k, t, s) == Operation(w, x, f, k, t, s)
  {
    hide Rotate;
    SumOrder(w, f, k, t);
    Commute(Rotate(w + f + k + t, s), x);
  }

  lemma LineStep(x: Words, st: State, i: nat)
    ensures Step(x, st, i) == State(st.d, Line(x, i, st.a, st.b, st.c, st.d), st.b, st.c)
  {
    hide Auxiliary, T, Index, Rotation, Md5Step, Operation;
    StepOrder(Auxiliary(i, st.b, st.c, st.d), st.a, st.b, x[Index(i)], T(i), Rotation(i));
  }

  /** Four lines are four steps, after which the registers have their names again. */
  lemma FourLines(x: Words, st0: State, i: nat, a: word, b: word, c: word, d: word)
    requires var st := Steps(x, st0, i);
             && a == Line(x, i, st.a, st.b, st.c, st.d)
             && d == Line(x, i + 1, st.d, a, st.b, st.c)
             && c == Line(x, i + 2, st.c, d, a, st.b)
             && b == Line(x, i + 3, st.b, c, d, a)
    ensures Steps(x, st0, i + 4) == State(a, b, c, d)
  {
    hide Step, Line;
    var st := Steps(x, st0, i);
    LineStep(x, st, i);
    LineStep(x, State(st.d, a, st.b, st.c), i + 1);
    LineStep(x, State(st.c, d, a, st.b), i + 2);
    LineStep(x, State(st.b, c, d, a), i + 3);
    assert Steps(x, st0, i + 1) == State(st.d, a, st.b, st.c);
    assert Steps(x, st0, i + 2) == State(st.c, d, a, st.b);
    assert Steps(x, st0, i + 3) == State(st.b, c, d, a);
  }

  /** Four lines of round 1 of MD5_transform, each with its word and its constant. */
  method Lines1(x: Words, i: nat, k0: nat, t0: word, k1: nat, t1: word, k2: nat, t2: word, k3: nat, t3: word,
                a0: word, b0: word, c0: word, d0: word, ghost st: State)
    returns (a: word, b: word, c: word, d: word)
    requires 0 <= i < 16 && i % 4 == 0
    requires k0 == Index(i) && k1 == Index(i + 1) && k2 == Index(i + 2) && k3 == Index(i + 3)
    requires t0 == T(i) && t1 == T(i + 1) && t2 == T(i + 2) && t3 == T(i + 3)
    requires State(a0, b0, c0, d0) == Steps(x, st, i)
    ensures State(a, b, c, d) == Steps(x, st, i + 4)
  {
    Macros();
    hide F, G, H, I, F1, F2, F3, F4, Md5Step, Steps, T, Index;
    a, b, c, d := a0, b0, c0, d0;
    a := Md5Step(F1(b, c, d), a, b, x[k0], t0, 7);
    d := Md5Step(F1(a, b, c), d, a, x[k1], t1, 12);
    c := Md5Step(F1(d, a, b), c, d, x[k2], t2, 17);
    b := Md5Step(F1(c, d, a), b, c, x[k3], t3, 22);
    FourLines(x, st, i, a, b, c, d);
  }

  /** Four lines of round 2 of MD5_transform, each with its word and its constant. */
  method Lines2(x: Words, i: nat, k0: nat, t0: word, k1: nat, t1: word, k2: nat, t2: word, k3: nat, t3: word,
                a0: word, b0: word, c0: word, d0: word, ghost st: State)
    returns (a: word, b: word, c: word, d: word)
    requires 16 <= i < 32 && i % 4 == 0
    requires k0 == Index(i) && k1 == Index(i + 1) && k2 == Index(i + 2) && k3 == Index(i + 3)
    requires t0 == T(i) && t1 == T(i + 1) && t2 == T(i + 2) && t3 == T(i + 3)
    requires State(a0, b0, c0, d0) == Steps(x, st, i)
    ensures State(a, b, c, d) == Steps(x, st, i + 4)
  {
    Macros();
    hide F, G, H, I, F1, F2, F3, F4, Md5Step, Steps, T, Index;
    a, b, c, d := a0, b0, c0, d0;
    a := Md5Step(F2(b, c, d), a, b, x[k0], t0, 5);
    d := Md5Step(F2(a, b, c), d, a, x[k1], t1, 9);
    c := Md5Step(F2(d, a, b), c, d, x[k2], t2, 14);
    b := Md5Step(F2(c, d, a), b, c, x[k3], t3, 20);
    FourLines(x, st, i, a, b, c, d);
  }

  /** Four lines of round 3 of MD5_transform, each with its word and its constant. */
  method Lines3(x: Words, i: nat, k0: nat, t0: word, k1: nat, t1: word, k2: nat, t2: word, k3: nat, t3: word,
                a0: word, b0: word, c0: word, d0: word, ghost st: State)
    returns (a: word, b: word, c: word, d: word)
    requires 32 <= i < 48 && i % 4 == 0
    requires k0 == Index(i) && k1 == Index(i + 1) && k2 == Index(i + 2) && k3 == Index(i + 3)
    requires t0 == T(i) && t1 == T(i + 1) && t2 == T(i + 2) && t3 == T(i + 3)
    requires State(a0, b0, c0, d0) == Steps(x, st, i)
    ensures State(a, b, c, d) == Steps(x, st, i + 4)
  {
    Macros();
    hide F, G, H, I, F1, F2, F3, F4, Md5Step, Steps, T, Index;
    a, b, c, d := a0, b0, c0, d0;
    a := Md5Step(F3(b, c, d), a, b, x[k0], t0, 4);
    d := Md5Step(F3(a, b, c), d, a, x[k1], t1, 11);
    c := Md5Step(F3(d, a, b), c, d, x[k2], t2, 16);
    b := Md5Step(F3(c, d, a), b, c, x[k3], t3, 23);
    FourLines(x, st, i, a, b, c, d);
  }

  /** Four lines of round 4 of MD5_transform, each with its word and its constant. */
  method Lines4(x: Words, i: nat, k0: nat, t0: word, k1: nat, t1: word, k2: nat, t2: word, k3: nat, t3: word,
                a0: word, b0: word, c0: word, d0: word, ghost st: State)
    returns (a: word, b: word, c: word, d: word)
    requires 48 <= i < 64 && i % 4 == 0
    requires k0 == Index(i) && k1 == Index(i + 1) && k2 == Index(i + 2) && k3 == Index(i + 3)
    requires t0 == T(i) && t1 == T(i + 1) && t2 == T(i + 2) && t3 == T(i + 3)
    requires State(a0, b0, c0, d0) == Steps(x, st, i)
    ensures State(a, b, c, d) == Steps(x, st, i + 4)
  {
    Macros();
    hide F, G, H, I, F1, F2, F3, F4, Md5Step, Steps, T, Index;
    a, b, c, d := a0, b0, c0, d0;
    a := Md5Step(F4(b, c, d), a, b, x[k0], t0, 6);
    d := Md5Step(F4(a, b, c), d, a, x[k1], t1, 10);
    c := Md5Step(F4(d, a, b), c, d, x[k2], t2, 15);
    b := Md5Step(F4(c, d, a), b, c, x[k3], t3, 21);
    FourLines(x, st, i, a, b, c, d);
  }

  /** MD5_transform: the sixty-four lines, four at a time. */
  method Transform(buf: array<word>, x: Words)
    requires buf.Length == 4
    modifies buf
    ensures StateOf(buf[..]) == Compress(StateOf(old(buf[..])), x)
  {
    hide Steps, Index, T, Plus;
    Indices();
    Constants1();
    Constants2();
    Constants3();
    Constants4();
    ghost var st := StateOf(buf[..]);
    StepsNone(x, st);
    var a, b, c, d := buf[0], buf[1], buf[2], buf[3];
    a, b, c, d := Lines1(x, 0, 0, 0xd76aa478, 1, 0xe8c7b756,
                          2, 0x242070db, 3, 0xc1bdceee, a, b, c, d, st);
    a, b, c, d := Lines1(x, 4, 4, 0xf57c0faf, 5, 0x4787c62a,
                          6, 0xa8304613, 7, 0xfd469501, a, b, c, d, st);
    a, b, c, d := Lines1(x, 8, 8, 0x698098d8, 9, 0x8b44f7af,
                          10, 0xffff5bb1, 11, 0x895cd7be, a, b, c, d, st);
    a, b, c, d := Lines1(x, 12, 12, 0x6b901122, 13, 0xfd987193,
                          14, 0xa679438e, 15, 0x49b40821, a, b, c, d, st);
    a, b, c, d := Lines2(x, 16, 1, 0xf61e2562, 6, 0xc040b340,
                          11, 0x265e5a51, 0, 0xe9b6c7aa, a, b, c, d, st);
    a, b, c, d := Lines2(x, 20, 5, 0xd62f105d, 10, 0x02441453,
                          15, 0xd8a1e681, 4, 0xe7d3fbc8, a, b, c, d, st);
    a, b, c, d := Lines2(x, 24, 9, 0x21e1cde6, 14, 0xc33707d6,
                          3, 0xf4d50d87, 8, 0x455a14ed, a, b, c, d, st);
    a, b, c, d := Lines2(x, 28, 13, 0xa9e3e905, 2, 0xfcefa3f8,
                          7, 0x676f02d9, 12, 0x8d2a4c8a, a, b, c, d, st);
    a, b, c, d := Lines3(x, 32, 5, 0xfffa3942, 8, 0x8771f681,
                          11, 0x6d9d6122, 14, 0xfde5380c, a, b, c, d, st);
    a, b, c, d := Lines3(x, 36, 1, 0xa4beea44, 4, 0x4bdecfa9,
                          7, 0xf6bb4b60, 10, 0xbebfbc70, a, b, c, d, st);
    a, b, c, d := Lines3(x, 40, 13, 0x289b7ec6, 0, 0xeaa127fa,
                          3, 0xd4ef3085, 6, 0x04881d05, a, b, c, d, st);
    a, b, c, d := Lines3(x, 44, 9, 0xd9d4d039, 12, 0xe6db99e5,
                          15, 0x1fa27cf8, 2, 0xc4ac5665, a, b, c, d, st);
    a, b, c, d := Lines4(x, 48, 0, 0xf4292244, 7, 0x432aff97,
                          14, 0xab9423a7, 5, 0xfc93a039, a, b, c, d, st);
    a, b, c, d := Lines4(x, 52, 12, 0x655b59c3, 3, 0x8f0ccc92,
                          10, 0xffeff47d, 1, 0x85845dd1, a, b, c, d, st);
    a, b, c, d := Lines4(x, 56, 8, 0x6fa87e4f, 15, 0xfe2ce6e0,
                          6, 0xa3014314, 13, 0x4e0811a1, a, b, c, d, st);
    a, b, c, d := Lines4(x, 60, 4, 0xf7537e82, 11, 0xbd3af235,
                          2, 0x2ad7d2bb, 9, 0xeb86d391, a, b, c, d, st);
    AddInto(buf, a, b, c, d);
  }

  /** The last two lines of MD5_transform. */
  method AddInto(buf: array<word>, a: word, b: word, c: word, d: word)
    requires buf.Length == 4
    modifies buf
    ensures StateOf(buf[..]) == Plus(StateOf(old(buf[..])), State(a, b, c, d))
  {
    hide Sum;
    buf[0], buf[1], buf[2], buf[3] := Sum(buf[0], a), Sum(buf[1], b), Sum(buf[2], c), Sum(buf[3], d);
  }

  function StateOf(buf: seq<word>): State
    requires |buf| == 4
  {
    State(buf[0], buf[1], buf[2], buf[3])
  }

  lemma StepsNone(x: Words, st: State)
    ensures Steps(x, st, 0) == st
  {
  }

  lemma Indices()
    ensures Index(0) == 0 && Index(1) == 1 && Index(2) == 2 && Index(3) == 3
    ensures Index(4) == 4 && Index(5) == 5 && Index(6) == 6 && Index(7) == 7
    ensures Index(8) == 8 && Index(9) == 9 && Index(10) == 10 && Index(11) == 11
    ensures Index(12) == 12 && Index(13) == 13 && Index(14) == 14 && Index(15) == 15
    ensures Index(16) == 1 && Index(17) == 6 && Index(18) == 11 && Index(19) == 0
    ensures Index(20) == 5 && Index(21) == 10 && Index(22) == 15 && Index(23) == 4
    ensures Index(24) == 9 && Index(25) == 14 && Index(26) == 3 && Index(27) == 8
    ensures Index(28) == 13 && Index(29) == 2 && Index(30) == 7 && Index(31) == 12
    ensures Index(32) == 5 && Index(33) == 8 && Index(34) == 11 && Index(35) == 14
    ensures Index(36) == 1 && Index(37) == 4 && Index(38) == 7 && Index(39) == 10
    ensures Index(40) == 13 && Index(41) == 0 && Index(42) == 3 && Index(43) == 6
    ensures Index(44) == 9 && Index(45) == 12 && Index(46) == 15 && Index(47) == 2
    ensures Index(48) == 0 && Index(49) == 7 && Index(50) == 14 && Index(51) == 5
    ensures Index(52) == 12 && Index(53) == 3 && Index(54) == 10 && Index(55) == 1
    ensures Index(56) == 8 && Index(57) == 15 && Index(58) == 6 && Index(59) == 13
    ensures Index(60) == 4 && Index(61) == 11 && Index(62) == 2 && Index(63) == 9
  {
  }

  lemma Constants1()
    ensures T(0) == 0xd76aa478 && T(1) == 0xe8c7b756 && T(2) == 0x242070db && T(3) == 0xc1bdceee
    ensures T(4) == 0xf57c0faf && T(5) == 0x4787c62a && T(6) == 0xa8304613 && T(7) == 0xfd469501
    ensures T(8) == 0x698098d8 && T(9) == 0x8b44f7af && T(10) == 0xffff5bb1 && T(11) == 0x895cd7be
    ensures T(12) == 0x6b901122 && T(13) == 0xfd987193 && T(14) == 0xa679438e && T(15) == 0x49b40821
  {
  }

  lemma Constants2()
    ensures T(16) == 0xf61e2562 && T(17) == 0xc040b340 && T(18) == 0x265e5a51 && T(19) == 0xe9b6c7aa
    ensures T(20) == 0xd62f105d && T(21) == 0x02441453 && T(22) == 0xd8a1e681 && T(23) == 0xe7d3fbc8
    ensures T(24) == 0x21e1cde6 && T(25) == 0xc33707d6 && T(26) == 0xf4d50d87 && T(27) == 0x455a14ed
    ensures T(28) == 0xa9e3e905 && T(29) == 0xfcefa3f8 && T(30) == 0x676f02d9 && T(31) == 0x8d2a4c8a
  {
  }

  lemma Constants3()
    ensures T(32) == 0xfffa3942 && T(33) == 0x8771f681 && T(34) == 0x6d9d6122 && T(35) == 0xfde5380c
    ensures T(36) == 0xa4beea44 && T(37) == 0x4bdecfa9 && T(38) == 0xf6bb4b60 && T(39) == 0xbebfbc70
    ensures T(40) == 0x289b7ec6 && T(41) == 0xeaa127fa && T(42) == 0xd4ef3085 && T(43) == 0x04881d05
    ensures T(44) == 0xd9d4d039 && T(45) == 0xe6db99e5 && T(46) == 0x1fa27cf8 && T(47) == 0xc4ac5665
  {
  }

  lemma Constants4()
    ensures T(48) == 0xf4292244 && T(49) == 0x432aff97 && T(50) == 0xab9423a7 && T(51) == 0xfc93a039
    ensures T(52) == 0x655b59c3 && T(53) == 0x8f0ccc92 && T(54) == 0xffeff47d && T(55) == 0x85845dd1
    ensures T(56) == 0x6fa87e4f && T(57) == 0xfe2ce6e0 && T(58) == 0xa3014314 && T(59) == 0x4e0811a1
    ensures T(60) == 0xf7537e82 && T(61) == 0xbd3af235 && T(62) == 0x2ad7d2bb && T(63) == 0xeb86d391
  {
  }
}
