/** Known answers of section A.5 of RFC 1321, one step at a time. */
module Md5Vectors {
  import opened Machine
  import opened Md5Rounds
  import opened Md5

  /** One step of a block from the initial state, with what it uses: its auxiliary function,
      its word, its constant and its rotation. */
  lemma Next(x: Words, i: nat, a: word, b: word, c: word, d: word, f: word, k: word, t: word, s: nat, e: word)
    requires Steps(x, INITIAL, i) == State(a, b, c, d) && 0 < s < 32
    requires Auxiliary(i, b, c, d) == f && x[Index(i)] == k && T(i) == t && Rotation(i) == s
    requires Operation(a, b, f, k, t, s) == e
    ensures Steps(x, INITIAL, i + 1) == State(d, e, b, c)
  {
    hide Operation, Auxiliary, Index, T, Rotation;
  }

  lemma First(x: Words)
    ensures Steps(x, INITIAL, 0) == State(0x67452301, 0xefcdab89, 0x98badcfe, 0x10325476)
  {
  }

  /** The octets of a message of no octet, or of three, once it is padded. */
  lemma ShortPadded(m: seq<octet>)
    requires |m| == 0 || |m| == 3
    ensures |Padded(m)| == 64
    ensures Padded(m) == m + [0x80] + seq(55 - |m|, _ => 0) + [if |m| == 0 then 0 else 24, 0, 0, 0] + [0, 0, 0, 0]
  {
    hide PadZeros, LowBits, HighBits, OctetsOf;
    ShortCounts(m);
    ShortLengths();
  }

  lemma ShortCounts(m: seq<octet>)
    requires |m| == 0 || |m| == 3
    ensures PadZeros(|m|) == 55 - |m| && LowBits(m) == 8 * |m| && HighBits(m) == 0
  {
  }

  lemma ShortLengths()
    ensures OctetsOf(0) == [0, 0, 0, 0] && OctetsOf(24) == [24, 0, 0, 0]
  {
  }

  lemma ShortOctet(m: seq<octet>, i: nat)
    requires |m| == 0 || |m| == 3
    ensures OctetAt(Padded(m), i) ==
            if i < |m| then m[i] else if i == |m| then 0x80 else if i == 56 then (if |m| == 0 then 0 else 24) else 0
  {
    ShortPadded(m);
    hide Padded;
  }

  lemma WordAtIs(m: seq<octet>, j: nat)
    ensures WordAt(m, j) ==
            Joined(OctetAt(m, 4 * j), OctetAt(m, 4 * j + 1), OctetAt(m, 4 * j + 2), OctetAt(m, 4 * j + 3))
  {
  }

  lemma WordsOfIs(m: seq<octet>, x: Words)
    requires forall j :: 0 <= j < 16 ==> WordAt(m, j) == x[j]
    ensures WordsOf(m) == x
  {
    hide WordAt;
  }

  /** Its digest is made of one block. */
  lemma ShortDigest(m: seq<octet>, x: Words, st: State)
    requires (|m| == 0 || |m| == 3) && WordsOf(Padded(m)) == x && Plus(INITIAL, Steps(x, INITIAL, 64)) == st
    ensures Digest(m) == Output(st)
  {
    hide Padded, Steps, Output, WordsOf, Plus;
    ShortPadded(m);
    assert Padded(m)[0..64] == Padded(m);
    assert Chain(Padded(m), 0) == INITIAL;
  }

  const EMPTY: Words := [
    0x00000080, 0x00000000, 0x00000000, 0x00000000,
    0x00000000, 0x00000000, 0x00000000, 0x00000000,
    0x00000000, 0x00000000, 0x00000000, 0x00000000,
    0x00000000, 0x00000000, 0x00000000, 0x00000000]

  lemma EmptyWord(i: nat)
    requires i < 16
    ensures EMPTY[i] == if i == 0 then 0x00000080 else 0
  {
  }

  lemma EmptyJoined()
    ensures Joined(0x80, 0x00, 0x00, 0x00) == 0x00000080
  {
  }

  lemma EmptyWords()
    ensures WordsOf(Padded([])) == EMPTY
  {
    hide *;
    var m: seq<octet> := [];
    assert |m| == 0;
    forall j | 0 <= j < 16 ensures WordAt(Padded(m), j) == EMPTY[j] {
      ShortOctet(m, 4 * j);
      ShortOctet(m, 4 * j + 1);
      ShortOctet(m, 4 * j + 2);
      ShortOctet(m, 4 * j + 3);
      WordAtIs(Padded(m), j);
      JoinedZero();
      EmptyWord(j);
      EmptyJoined();
    }
    WordsOfIs(Padded(m), EMPTY);
  }

  lemma EmptySteps1()
    ensures Steps(EMPTY, INITIAL, 8) ==
            State(0x32033344, 0x9bc13ce9, 0xf5b158db, 0x2f35d494)
  {
    hide EMPTY, Steps, T, Index;
    First(EMPTY);
    Constants1();
    Indices();
    EmptyWord(0); EmptyWord(1); EmptyWord(2); EmptyWord(3);
    EmptyWord(4); EmptyWord(5); EmptyWord(6); EmptyWord(7);
    Next(EMPTY, 0, 0x67452301, 0xefcdab89, 0x98badcfe, 0x10325476, 0x98badcfe,
         0x00000080, 0xd76aa478, 7, 0xa5202774);
    Next(EMPTY, 1, 0x10325476, 0xa5202774, 0xefcdab89, 0x98badcfe, 0xbd9afb8a,
         0x00000000, 0xe8c7b756, 12, 0xf59592dd);
    Next(EMPTY, 2, 0x98badcfe, 0xf59592dd, 0xa5202774, 0xefcdab89, 0xaf482b54,
         0x00000000, 0x242070db, 17, 0xe7f06b23);
    Next(EMPTY, 3, 0xefcdab89, 0xe7f06b23, 0xf59592dd, 0xa5202774, 0xe5900655,
         0x00000000, 0xc1bdceee, 22, 0x1b163203);
    Next(EMPTY, 4, 0xa5202774, 0x1b163203, 0xe7f06b23, 0xf59592dd, 0xe791a2df,
         0x00000000, 0xf57c0faf, 7, 0x32033344);
    Next(EMPTY, 5, 0xf59592dd, 0x32033344, 0x1b163203, 0xe7f06b23, 0xd7f27a23,
         0x00000000, 0x4787c62a, 12, 0x2f35d494);
    Next(EMPTY, 6, 0xe7f06b23, 0x2f35d494, 0x32033344, 0x1b163203, 0x32033207,
         0x00000000, 0xa8304613, 17, 0xf5b158db);
    Next(EMPTY, 7, 0x1b163203, 0xf5b158db, 0x2f35d494, 0x32033344, 0x27337394,
         0x00000000, 0xfd469501, 22, 0x9bc13ce9);
  }

  lemma EmptySteps2()
    ensures Steps(EMPTY, INITIAL, 16) ==
            State(0xf56c7cf1, 0xd6819c6a, 0x5aa53f75, 0x374943a7)
  {
    hide EMPTY, Steps, T, Index;
    EmptySteps1();
    Constants1();
    Indices();
    EmptyWord(8); EmptyWord(9); EmptyWord(10); EmptyWord(11);
    EmptyWord(12); EmptyWord(13); EmptyWord(14); EmptyWord(15);
    Next(EMPTY, 8, 0x32033344, 0x9bc13ce9, 0xf5b158db, 0x2f35d494, 0xb5b5d8dd,
         0x00000000, 0x698098d8, 7, 0x3893b991);
    Next(EMPTY, 9, 0x2f35d494, 0x3893b991, 0x9bc13ce9, 0xf5b158db, 0xdda178cb,
         0x00000000, 0x8b44f7af, 12, 0xfce4a312);
    Next(EMPTY, 10, 0xf5b158db, 0xfce4a312, 0x3893b991, 0x9bc13ce9, 0x3b81bdf9,
         0x00000000, 0xffff5bb1, 17, 0xe1ef0576);
    Next(EMPTY, 11, 0x9bc13ce9, 0xe1ef0576, 0xfce4a312, 0x3893b991, 0xf8f4b993,
         0x00000000, 0x895cd7be, 22, 0x70768a29);
    Next(EMPTY, 12, 0x3893b991, 0x70768a29, 0xe1ef0576, 0xfce4a312, 0xece62132,
         0x00000000, 0x6b901122, 7, 0xf56c7cf1);
    Next(EMPTY, 13, 0xfce4a312, 0xf56c7cf1, 0x70768a29, 0xe1ef0576, 0x70e70927,
         0x00000000, 0xfd987193, 12, 0x374943a7);
    Next(EMPTY, 14, 0xe1ef0576, 0x374943a7, 0xf56c7cf1, 0x70768a29, 0x757ec8a9,
         0x00000000, 0xa679438e, 17, 0x5aa53f75);
    Next(EMPTY, 15, 0x70768a29, 0x5aa53f75, 0x374943a7, 0xf56c7cf1, 0xb74943a5,
         0x00000000, 0x49b40821, 22, 0xd6819c6a);
  }

  lemma EmptySteps3()
    ensures Steps(EMPTY, INITIAL, 24) ==
            State(0x3d1e3e6c, 0xe422531a, 0xeb41643e, 0x68b7b3e3)
  {
    hide EMPTY, Steps, T, Index;
    EmptySteps2();
    Constants2();
    Indices();
    EmptyWord(0); EmptyWord(1); EmptyWord(4); EmptyWord(5);
    EmptyWord(6); EmptyWord(10); EmptyWord(11); EmptyWord(15);
    Next(EMPTY, 16, 0xf56c7cf1, 0xd6819c6a, 0x5aa53f75, 0x374943a7, 0x5ea53c72,
         0x00000000, 0xf61e2562, 5, 0x1c7d7513);
    Next(EMPTY, 17, 0x374943a7, 0x1c7d7513, 0xd6819c6a, 0x5aa53f75, 0x9c25b51b,
         0x00000000, 0xc040b340, 9, 0x7bd57a3a);
    Next(EMPTY, 18, 0x5aa53f75, 0x7bd57a3a, 0x1c7d7513, 0xd6819c6a, 0x5afd793b,
         0x00000000, 0x265e5a51, 14, 0xc095f13a);
    Next(EMPTY, 19, 0xd6819c6a, 0xc095f13a, 0x7bd57a3a, 0x1c7d7513, 0x63957b3a,
         0x00000080, 0xe9b6c7aa, 20, 0xbd782e17);
    Next(EMPTY, 20, 0x1c7d7513, 0xbd782e17, 0xc095f13a, 0x7bd57a3a, 0xb950ab12,
         0x00000000, 0xd62f105d, 5, 0x3d1e3e6c);
    Next(EMPTY, 21, 0x7bd57a3a, 0x3d1e3e6c, 0xbd782e17, 0xc095f13a, 0x3d7c3e2d,
         0x00000000, 0x02441453, 9, 0x68b7b3e3);
    Next(EMPTY, 22, 0xc095f13a, 0x68b7b3e3, 0x3d1e3e6c, 0xbd782e17, 0x2836326b,
         0x00000000, 0xd8a1e681, 14, 0xeb41643e);
    Next(EMPTY, 23, 0xbd782e17, 0xeb41643e, 0x68b7b3e3, 0x3d1e3e6c, 0x69a1a5af,
         0x00000000, 0xe7d3fbc8, 20, 0xe422531a);
  }

  lemma EmptySteps4()
    ensures Steps(EMPTY, INITIAL, 32) ==
            State(0x13707036, 0xa2205f1f, 0x1c31c384, 0xae7813db)
  {
    hide EMPTY, Steps, T, Index;
    EmptySteps3();
    Constants2();
    Indices();
    EmptyWord(2); EmptyWord(3); EmptyWord(7); EmptyWord(8);
    EmptyWord(9); EmptyWord(12); EmptyWord(13); EmptyWord(14);
    Next(EMPTY, 24, 0x3d1e3e6c, 0xe422531a, 0xeb41643e, 0x68b7b3e3, 0xe362571e,
         0x00000000, 0x21e1cde6, 5, 0x306ec122);
    Next(EMPTY, 25, 0x68b7b3e3, 0x306ec122, 0xe422531a, 0xeb41643e, 0x24625322,
         0x00000000, 0xc33707d6, 9, 0xd28c77c2);
    Next(EMPTY, 26, 0xeb41643e, 0xd28c77c2, 0x306ec122, 0xe422531a, 0xd04cd322,
         0x00000000, 0xf4d50d87, 14, 0xa3c663da);
    Next(EMPTY, 27, 0xe422531a, 0xa3c663da, 0xd28c77c2, 0x306ec122, 0xe2c677c2,
         0x00000000, 0x455a14ed, 20, 0xa0572807);
    Next(EMPTY, 28, 0x306ec122, 0xa0572807, 0xa3c663da, 0xd28c77c2, 0xa146201a,
         0x00000000, 0xa9e3e905, 5, 0x13707036);
    Next(EMPTY, 29, 0xd28c77c2, 0x13707036, 0xa0572807, 0xa3c663da, 0x03516817,
         0x00000000, 0xfcefa3f8, 9, 0xae7813db);
    Next(EMPTY, 30, 0xa3c663da, 0xae7813db, 0x13707036, 0xa0572807, 0xb3705033,
         0x00000000, 0x676f02d9, 14, 0x1c31c384);
    Next(EMPTY, 31, 0xa0572807, 0x1c31c384, 0xae7813db, 0x13707036, 0xbc3843cd,
         0x00000000, 0x8d2a4c8a, 20, 0xa2205f1f);
  }

  lemma EmptySteps5()
    ensures Steps(EMPTY, INITIAL, 40) ==
            State(0x5f7a9b2e, 0xc5dc8c15, 0x91ca4cb7, 0xabc34e16)
  {
    hide EMPTY, Steps, T, Index;
    EmptySteps4();
    Constants3();
    Indices();
    EmptyWord(1); EmptyWord(4); EmptyWord(5); EmptyWord(7);
    EmptyWord(8); EmptyWord(10); EmptyWord(11); EmptyWord(14);
    Next(EMPTY, 32, 0x13707036, 0xa2205f1f, 0x1c31c384, 0xae7813db, 0x10698f40,
         0x00000000, 0xfffa3942, 4, 0xdf63eaa1);
    Next(EMPTY, 33, 0xae7813db, 0xdf63eaa1, 0xa2205f1f, 0x1c31c384, 0x6172763a,
         0x00000000, 0x8771f681, 11, 0xc3689f5b);
    Next(EMPTY, 34, 0x1c31c384, 0xc3689f5b, 0xdf63eaa1, 0xa2205f1f, 0xbe2b2ae5,
         0x00000000, 0x6d9d6122, 16, 0x12f3e755);
    Next(EMPTY, 35, 0xa2205f1f, 0x12f3e755, 0xc3689f5b, 0xdf63eaa1, 0x0ef892af,
         0x00000000, 0xfde5380c, 23, 0x004b6669);
    Next(EMPTY, 36, 0xdf63eaa1, 0x004b6669, 0x12f3e755, 0xc3689f5b, 0xd1d01e67,
         0x00000000, 0xa4beea44, 4, 0x5f7a9b2e);
    Next(EMPTY, 37, 0xc3689f5b, 0x5f7a9b2e, 0x004b6669, 0x12f3e755, 0x4dc21a12,
         0x00000000, 0x4bdecfa9, 11, 0xabc34e16);
    Next(EMPTY, 38, 0x12f3e755, 0xabc34e16, 0x5f7a9b2e, 0x004b6669, 0xf4f2b351,
         0x00000000, 0xf6bb4b60, 16, 0x91ca4cb7);
    Next(EMPTY, 39, 0x004b6669, 0x91ca4cb7, 0xabc34e16, 0x5f7a9b2e, 0x6573998f,
         0x00000000, 0xbebfbc70, 23, 0xc5dc8c15);
  }

  lemma EmptySteps6()
    ensures Steps(EMPTY, INITIAL, 48) ==
            State(0x3f55edfd, 0xca7d2dbd, 0x68d84ea2, 0x22a31f54)
  {
    hide EMPTY, Steps, T, Index;
    EmptySteps5();
    Constants3();
    Indices();
    EmptyWord(0); EmptyWord(2); EmptyWord(3); EmptyWord(6);
    EmptyWord(9); EmptyWord(12); EmptyWord(13); EmptyWord(15);
    Next(EMPTY, 40, 0x5f7a9b2e, 0xc5dc8c15, 0x91ca4cb7, 0xabc34e16, 0xffd58eb4,
         0x00000000, 0x289b7ec6, 4, 0x4497169d);
    Next(EMPTY, 41, 0xabc34e16, 0x4497169d, 0xc5dc8c15, 0x91ca4cb7, 0x1081d63f,
         0x00000080, 0xeaa127fa, 11, 0x76fd93d4);
    Next(EMPTY, 42, 0x91ca4cb7, 0x76fd93d4, 0x4497169d, 0xc5dc8c15, 0xf7b6095c,
         0x00000000, 0xd4ef3085, 16, 0xfd95f243);
    Next(EMPTY, 43, 0xc5dc8c15, 0xfd95f243, 0x76fd93d4, 0x4497169d, 0xcfff770a,
         0x00000000, 0x04881d05, 23, 0x0fe32453);
    Next(EMPTY, 44, 0x4497169d, 0x0fe32453, 0xfd95f243, 0x76fd93d4, 0x848b45c4,
         0x00000000, 0xd9d4d039, 4, 0x3f55edfd);
    Next(EMPTY, 45, 0x76fd93d4, 0x3f55edfd, 0x0fe32453, 0xfd95f243, 0xcd233bed,
         0x00000000, 0xe6db99e5, 11, 0x22a31f54);
    Next(EMPTY, 46, 0xfd95f243, 0x22a31f54, 0x3f55edfd, 0x0fe32453, 0x1215d6fa,
         0x00000000, 0x1fa27cf8, 16, 0x68d84ea2);
    Next(EMPTY, 47, 0x0fe32453, 0x68d84ea2, 0x22a31f54, 0x3f55edfd, 0x752ebc0b,
         0x00000000, 0xc4ac5665, 23, 0xca7d2dbd);
  }

  lemma EmptySteps7()
    ensures Steps(EMPTY, INITIAL, 56) ==
            State(0x5625a114, 0x1e77fa61, 0x392ad0d0, 0x3450f42b)
  {
    hide EMPTY, Steps, T, Index;
    EmptySteps6();
    Constants4();
    Indices();
    EmptyWord(0); EmptyWord(1); EmptyWord(3); EmptyWord(5);
    EmptyWord(7); EmptyWord(10); EmptyWord(12); EmptyWord(14);
    Next(EMPTY, 48, 0x3f55edfd, 0xca7d2dbd, 0x68d84ea2, 0x22a31f54, 0xb7a5a31d,
         0x00000080, 0xf4292244, 6, 0x93aa2577);
    Next(EMPTY, 49, 0x22a31f54, 0x93aa2577, 0xca7d2dbd, 0x68d84ea2, 0x5dd298c2,
         0x00000000, 0x432aff97, 10, 0x1688dc85);
    Next(EMPTY, 50, 0x68d84ea2, 0x1688dc85, 0x93aa2577, 0xca7d2dbd, 0xa420fbb0,
         0x00000000, 0xab9423a7, 15, 0xcd85b8cb);
    Next(EMPTY, 51, 0xca7d2dbd, 0xcd85b8cb, 0x1688dc85, 0x93aa2577, 0xfb5d264e,
         0x00000000, 0xfc93a039, 21, 0x561e0689);
    Next(EMPTY, 52, 0x93aa2577, 0x561e0689, 0xcd85b8cb, 0x1688dc85, 0x32fa9f30,
         0x00000000, 0x655b59c3, 6, 0x5625a114);
    Next(EMPTY, 53, 0x1688dc85, 0x5625a114, 0x561e0689, 0xcd85b8cb, 0x2061e1bd,
         0x00000000, 0x8f0ccc92, 10, 0x3450f42b);
    Next(EMPTY, 54, 0xcd85b8cb, 0x3450f42b, 0x5625a114, 0x561e0689, 0xebd45c6b,
         0x00000000, 0xffeff47d, 15, 0x392ad0d0);
    Next(EMPTY, 55, 0x561e0689, 0x392ad0d0, 0x3450f42b, 0x5625a114, 0x8daa2ad0,
         0x00000000, 0x85845dd1, 21, 0x1e77fa61);
  }

  lemma EmptySteps8()
    ensures Steps(EMPTY, INITIAL, 64) ==
            State(0x7246fad3, 0x14e45506, 0xff4ea3eb, 0x6e10a476)
  {
    hide EMPTY, Steps, T, Index;
    EmptySteps7();
    Constants4();
    Indices();
    EmptyWord(2); EmptyWord(4); EmptyWord(6); EmptyWord(8);
    EmptyWord(9); EmptyWord(11); EmptyWord(13); EmptyWord(15);
    Next(EMPTY, 56, 0x5625a114, 0x1e77fa61, 0x392ad0d0, 0x3450f42b, 0xe6d52b25,
         0x00000000, 0x6fa87e4f, 6, 0x474a9c8c);
    Next(EMPTY, 57, 0x3450f42b, 0x474a9c8c, 0x1e77fa61, 0x392ad0d0, 0xd9a845ce,
         0x00000000, 0xfe2ce6e0, 10, 0xdfce00bc);
    Next(EMPTY, 58, 0x392ad0d0, 0xdfce00bc, 0x474a9c8c, 0x1e77fa61, 0xb8849932,
         0x00000000, 0xa3014314, 15, 0x36594b14);
    Next(EMPTY, 59, 0x1e77fa61, 0x36594b14, 0xdfce00bc, 0x474a9c8c, 0x61336bcb,
         0x00000000, 0x4e0811a1, 21, 0x30130182);
    Next(EMPTY, 60, 0x474a9c8c, 0x30130182, 0x36594b14, 0xdfce00bc, 0x066ab4d7,
         0x00000000, 0xf7537e82, 6, 0x7246fad3);
    Next(EMPTY, 61, 0xdfce00bc, 0x7246fad3, 0x30130182, 0x36594b14, 0xcbf5ff79,
         0x00000000, 0xbd3af235, 10, 0x6e10a476);
    Next(EMPTY, 62, 0x36594b14, 0x6e10a476, 0x7246fad3, 0x30130182, 0x9dba04ac,
         0x00000000, 0x2ad7d2bb, 15, 0xff4ea3eb);
    Next(EMPTY, 63, 0x30130182, 0xff4ea3eb, 0x6e10a476, 0x7246fad3, 0x91ef0399,
         0x00000000, 0xeb86d391, 21, 0x14e45506);
  }

  lemma EmptySum()
    ensures Plus(INITIAL, State(0x7246fad3, 0x14e45506, 0xff4ea3eb, 0x6e10a476)) ==
            State(0xd98c1dd4, 0x04b2008f, 0x980980e9, 0x7e42f8ec)
  {
  }

  lemma EmptyOctets()
    ensures Output(State(0xd98c1dd4, 0x04b2008f, 0x980980e9, 0x7e42f8ec)) ==
            [0xd4, 0x1d, 0x8c, 0xd9, 0x8f, 0x00, 0xb2, 0x04,
             0xe9, 0x80, 0x09, 0x98, 0xec, 0xf8, 0x42, 0x7e]
  {
  }

  /** MD5 ("") = d41d8cd98f00b204e9800998ecf8427e */
  lemma EmptyDigest()
    ensures Digest([]) ==
            [0xd4, 0x1d, 0x8c, 0xd9, 0x8f, 0x00, 0xb2, 0x04,
             0xe9, 0x80, 0x09, 0x98, 0xec, 0xf8, 0x42, 0x7e]
  {
    hide *;
    EmptyWords();
    EmptySteps8();
    EmptySum();
    EmptyOctets();
    ShortDigest([], EMPTY, State(0xd98c1dd4, 0x04b2008f, 0x980980e9, 0x7e42f8ec));
  }

  const ABC: Words := [
    0x80636261, 0x00000000, 0x00000000, 0x00000000,
    0x00000000, 0x00000000, 0x00000000, 0x00000000,
    0x00000000, 0x00000000, 0x00000000, 0x00000000,
    0x00000000, 0x00000000, 0x00000018, 0x00000000]

  lemma AbcWord(i: nat)
    requires i < 16
    ensures ABC[i] == if i == 0 then 0x80636261 else if i == 14 then 0x00000018 else 0
  {
  }

  lemma AbcJoined()
    ensures Joined(0x61, 0x62, 0x63, 0x80) == 0x80636261
    ensures Joined(0x18, 0x00, 0x00, 0x00) == 0x00000018
  {
  }

  lemma AbcWords()
    ensures WordsOf(Padded([0x61, 0x62, 0x63])) == ABC
  {
    hide *;
    var m: seq<octet> := [0x61, 0x62, 0x63];
    assert |m| == 3;
    forall j | 0 <= j < 16 ensures WordAt(Padded(m), j) == ABC[j] {
      ShortOctet(m, 4 * j);
      ShortOctet(m, 4 * j + 1);
      ShortOctet(m, 4 * j + 2);
      ShortOctet(m, 4 * j + 3);
      WordAtIs(Padded(m), j);
      JoinedZero();
      AbcWord(j);
      AbcJoined();
    }
    WordsOfIs(Padded(m), ABC);
  }

  lemma AbcSteps1()
    ensures Steps(ABC, INITIAL, 8) ==
            State(0xc73741ef, 0x928d99f6, 0x207dc67b, 0x8bac3051)
  {
    hide ABC, Steps, T, Index;
    First(ABC);
    Constants1();
    Indices();
    AbcWord(0); AbcWord(1); AbcWord(2); AbcWord(3);
    AbcWord(4); AbcWord(5); AbcWord(6); AbcWord(7);
    Next(ABC, 0, 0x67452301, 0xefcdab89, 0x98badcfe, 0x10325476, 0x98badcfe,
         0x80636261, 0xd76aa478, 7, 0xd6d117b4);
    Next(ABC, 1, 0x10325476, 0xd6d117b4, 0xefcdab89, 0x98badcfe, 0xceebcbca,
         0x00000000, 0xe8c7b756, 12, 0x344a8432);
    Next(ABC, 2, 0x98badcfe, 0x344a8432, 0xd6d117b4, 0xefcdab89, 0xdfc52fb9,
         0x00000000, 0x242070db, 17, 0x2f6fbd72);
    Next(ABC, 3, 0xefcdab89, 0x2f6fbd72, 0x344a8432, 0xd6d117b4, 0xf4da86b6,
         0x00000000, 0xc1bdceee, 22, 0x7ad956f2);
    Next(ABC, 4, 0xd6d117b4, 0x7ad956f2, 0x2f6fbd72, 0x344a8432, 0x2e4b9472,
         0x00000000, 0xf57c0faf, 7, 0xc73741ef);
    Next(ABC, 5, 0x344a8432, 0xc73741ef, 0x7ad956f2, 0x2f6fbd72, 0x6a59fcf2,
         0x00000000, 0x4787c62a, 12, 0x8bac3051);
    Next(ABC, 6, 0x2f6fbd72, 0x8bac3051, 0xc73741ef, 0x7ad956f2, 0xf37546e3,
         0x00000000, 0xa8304613, 17, 0x207dc67b);
    Next(ABC, 7, 0x7ad956f2, 0x207dc67b, 0x8bac3051, 0xc73741ef, 0xc72e01d5,
         0x00000000, 0xfd469501, 22, 0x928d99f6);
  }

  lemma AbcSteps2()
    ensures Steps(ABC, INITIAL, 16) ==
            State(0xdda9b9a6, 0x72aff2e0, 0xe396856b, 0xa1051895)
  {
    hide ABC, Steps, T, Index;
    AbcSteps1();
    Constants1();
    Indices();
    AbcWord(8); AbcWord(9); AbcWord(10); AbcWord(11);
    AbcWord(12); AbcWord(13); AbcWord(14); AbcWord(15);
    Next(ABC, 8, 0xc73741ef, 0x928d99f6, 0x207dc67b, 0x8bac3051, 0x092da073,
         0x00000000, 0x698098d8, 7, 0x854b3712);
    Next(ABC, 9, 0x8bac3051, 0x854b3712, 0x928d99f6, 0x207dc67b, 0xa03dd17b,
         0x00000000, 0x8b44f7af, 12, 0x74e2f284);
    Next(ABC, 10, 0x207dc67b, 0x74e2f284, 0x854b3712, 0x928d99f6, 0x864f3b72,
         0x00000000, 0xffff5bb1, 17, 0x3020401c);
    Next(ABC, 11, 0x928d99f6, 0x3020401c, 0x74e2f284, 0x854b3712, 0xb56b7706,
         0x00000000, 0x895cd7be, 22, 0x5ed49596);
    Next(ABC, 12, 0x854b3712, 0x5ed49596, 0x3020401c, 0x74e2f284, 0x30226214,
         0x00000000, 0x6b901122, 7, 0xdda9b9a6);
    Next(ABC, 13, 0x74e2f284, 0xdda9b9a6, 0x5ed49596, 0x3020401c, 0x7c80d19e,
         0x00000000, 0xfd987193, 12, 0xa1051895);
    Next(ABC, 14, 0x3020401c, 0xa1051895, 0xdda9b9a6, 0x5ed49596, 0xdfd19d86,
         0x00000018, 0xa679438e, 17, 0xe396856b);
    Next(ABC, 15, 0x5ed49596, 0xe396856b, 0xa1051895, 0xdda9b9a6, 0xbd2d3885,
         0x00000000, 0x49b40821, 22, 0x72aff2e0);
  }

  lemma AbcSteps3()
    ensures Steps(ABC, INITIAL, 24) ==
            State(0x59a8ffda, 0x47092c07, 0xabfc7920, 0x6d002f1e)
  {
    hide ABC, Steps, T, Index;
    AbcSteps2();
    Constants2();
    Indices();
    AbcWord(0); AbcWord(1); AbcWord(4); AbcWord(5);
    AbcWord(6); AbcWord(10); AbcWord(11); AbcWord(15);
    Next(ABC, 16, 0xdda9b9a6, 0x72aff2e0, 0xe396856b, 0xa1051895, 0x629795ea,
         0x00000000, 0xf61e2562, 5, 0x3e9e9126);
    Next(ABC, 17, 0xa1051895, 0x3e9e9126, 0x72aff2e0, 0xe396856b, 0x32bff3a2,
         0x00000000, 0xc040b340, 9, 0x4a1d804e);
    Next(ABC, 18, 0xe396856b, 0x4a1d804e, 0x3e9e9126, 0x72aff2e0, 0x4e1d8146,
         0x00000000, 0x265e5a51, 14, 0xe25e1652);
    Next(ABC, 19, 0x72aff2e0, 0xe25e1652, 0x4a1d804e, 0x3e9e9126, 0x621f104a,
         0x80636261, 0xe9b6c7aa, 20, 0xb5b204e4);
    Next(ABC, 20, 0x3e9e9126, 0xb5b204e4, 0xe25e1652, 0x4a1d804e, 0xa0521654,
         0x00000000, 0xd62f105d, 5, 0x59a8ffda);
    Next(ABC, 21, 0x4a1d804e, 0x59a8ffda, 0xb5b204e4, 0xe25e1652, 0x55a816f6,
         0x00000000, 0x02441453, 9, 0x6d002f1e);
    Next(ABC, 22, 0xe25e1652, 0x6d002f1e, 0x59a8ffda, 0xb5b204e4, 0x6d08ff1e,
         0x00000000, 0xd8a1e681, 14, 0xabfc7920);
    Next(ABC, 23, 0xb5b204e4, 0xabfc7920, 0x6d002f1e, 0x59a8ffda, 0x2da87904,
         0x00000000, 0xe7d3fbc8, 20, 0x47092c07);
  }

  lemma AbcSteps4()
    ensures Steps(ABC, INITIAL, 32) ==
            State(0x790a77fb, 0x726342d3, 0xa62884aa, 0x9f47e4f8)
  {
    hide ABC, Steps, T, Index;
    AbcSteps3();
    Constants2();
    Indices();
    AbcWord(2); AbcWord(3); AbcWord(7); AbcWord(8);
    AbcWord(9); AbcWord(12); AbcWord(13); AbcWord(14);
    Next(ABC, 24, 0x59a8ffda, 0x47092c07, 0xabfc7920, 0x6d002f1e, 0xc7fc7c26,
         0x00000000, 0x21e1cde6, 5, 0xb7f268cf);
    Next(ABC, 25, 0x6d002f1e, 0xb7f268cf, 0x47092c07, 0xabfc7920, 0xe7f16c07,
         0x00000018, 0xc33707d6, 9, 0x09388eff);
    Next(ABC, 26, 0xabfc7920, 0x09388eff, 0xb7f268cf, 0x47092c07, 0xb1fa4ccf,
         0x00000000, 0xf4d50d87, 14, 0xfe1623b1);
    Next(ABC, 27, 0x47092c07, 0xfe1623b1, 0x09388eff, 0xb7f268cf, 0xbe1aa6b1,
         0x00000000, 0x455a14ed, 20, 0x786acb8f);
    Next(ABC, 28, 0xb7f268cf, 0x786acb8f, 0xfe1623b1, 0x09388eff, 0xfe2eab8f,
         0x00000000, 0xa9e3e905, 5, 0x790a77fb);
    Next(ABC, 29, 0x09388eff, 0x790a77fb, 0x786acb8f, 0xfe1623b1, 0x786aebbf,
         0x00000000, 0xfcefa3f8, 9, 0x9f47e4f8);
    Next(ABC, 30, 0xfe1623b1, 0x9f47e4f8, 0x790a77fb, 0x786acb8f, 0x1942f4f8,
         0x00000000, 0x676f02d9, 14, 0xa62884aa);
    Next(ABC, 31, 0x786acb8f, 0xa62884aa, 0x9f47e4f8, 0x790a77fb, 0xa64d84aa,
         0x00000000, 0x8d2a4c8a, 20, 0x726342d3);
  }

  lemma AbcSteps5()
    ensures Steps(ABC, INITIAL, 40) ==
            State(0x21b117b9, 0x5a2f5ea5, 0x3575227e, 0x6e7429d5)
  {
    hide ABC, Steps, T, Index;
    AbcSteps4();
    Constants3();
    Indices();
    AbcWord(1); AbcWord(4); AbcWord(5); AbcWord(7);
    AbcWord(8); AbcWord(10); AbcWord(11); AbcWord(14);
    Next(ABC, 32, 0x790a77fb, 0x726342d3, 0xa62884aa, 0x9f47e4f8, 0x4b0c2281,
         0x00000000, 0xfffa3942, 4, 0xb3707ebf);
    Next(ABC, 33, 0x9f47e4f8, 0xb3707ebf, 0x726342d3, 0xa62884aa, 0x673bb8c6,
         0x00000000, 0x8771f681, 11, 0x60127b2e);
    Next(ABC, 34, 0xa62884aa, 0x60127b2e, 0xb3707ebf, 0x726342d3, 0xa1014742,
         0x00000000, 0x6d9d6122, 16, 0x8d212ff5);
    Next(ABC, 35, 0x726342d3, 0x8d212ff5, 0x60127b2e, 0xb3707ebf, 0x5e432a64,
         0x00000018, 0xfde5380c, 23, 0x3b0875c7);
    Next(ABC, 36, 0xb3707ebf, 0x3b0875c7, 0x8d212ff5, 0x60127b2e, 0xd63b211c,
         0x00000000, 0xa4beea44, 4, 0x21b117b9);
    Next(ABC, 37, 0x60127b2e, 0x21b117b9, 0x3b0875c7, 0x8d212ff5, 0x97984d8b,
         0x00000000, 0x4bdecfa9, 11, 0x6e7429d5);
    Next(ABC, 38, 0x8d212ff5, 0x6e7429d5, 0x21b117b9, 0x3b0875c7, 0x74cd4bab,
         0x00000000, 0xf6bb4b60, 16, 0x3575227e);
    Next(ABC, 39, 0x3b0875c7, 0x3575227e, 0x6e7429d5, 0x21b117b9, 0x7ab01c12,
         0x00000000, 0xbebfbc70, 23, 0x5a2f5ea5);
  }

  lemma AbcSteps6()
    ensures Steps(ABC, INITIAL, 48) ==
            State(0x7f2e507b, 0x7beb9700, 0x8fae6399, 0x99d9679d)
  {
    hide ABC, Steps, T, Index;
    AbcSteps5();
    Constants3();
    Indices();
    AbcWord(0); AbcWord(2); AbcWord(3); AbcWord(6);
    AbcWord(9); AbcWord(12); AbcWord(13); AbcWord(15);
    Next(ABC, 40, 0x21b117b9, 0x5a2f5ea5, 0x3575227e, 0x6e7429d5, 0x012e550e,
         0x00000000, 0x289b7ec6, 4, 0x11de1779);
    Next(ABC, 41, 0x6e7429d5, 0x11de1779, 0x5a2f5ea5, 0x3575227e, 0x7e846ba2,
         0x80636261, 0xeaa127fa, 11, 0xfadcaa38);
    Next(ABC, 42, 0x3575227e, 0xfadcaa38, 0x11de1779, 0x5a2f5ea5, 0xb12de3e4,
         0x00000000, 0xd4ef3085, 16, 0x31c465ca);
    Next(ABC, 43, 0x5a2f5ea5, 0x31c465ca, 0xfadcaa38, 0x11de1779, 0xdac6d88b,
         0x00000000, 0x04881d05, 23, 0x4c6124f4);
    Next(ABC, 44, 0x11de1779, 0x4c6124f4, 0x31c465ca, 0xfadcaa38, 0x8779eb06,
         0x00000000, 0xd9d4d039, 4, 0x7f2e507b);
    Next(ABC, 45, 0xfadcaa38, 0x7f2e507b, 0x4c6124f4, 0x31c465ca, 0x028b1145,
         0x00000000, 0xe6db99e5, 11, 0x99d9679d);
    Next(ABC, 46, 0x31c465ca, 0x99d9679d, 0x7f2e507b, 0x4c6124f4, 0xaa961312,
         0x00000000, 0x1fa27cf8, 16, 0x8fae6399);
    Next(ABC, 47, 0x4c6124f4, 0x8fae6399, 0x99d9679d, 0x7f2e507b, 0x6959547f,
         0x00000000, 0xc4ac5665, 23, 0x7beb9700);
  }

  lemma AbcSteps7()
    ensures Steps(ABC, INITIAL, 56) ==
            State(0x06cc5e8a, 0x3bfa2c27, 0x7d632dd0, 0x5b0d97aa)
  {
    hide ABC, Steps, T, Index;
    AbcSteps6();
    Constants4();
    Indices();
    AbcWord(0); AbcWord(1); AbcWord(3); AbcWord(5);
    AbcWord(7); AbcWord(10); AbcWord(12); AbcWord(14);
    Next(ABC, 48, 0x7f2e507b, 0x7beb9700, 0x8fae6399, 0x99d9679d, 0xf041fcfb,
         0x80636261, 0xf4292244, 6, 0x7b201df8);
    Next(ABC, 49, 0x99d9679d, 0x7b201df8, 0x7beb9700, 0x8fae6399, 0x009a0afe,
         0x00000000, 0x432aff97, 10, 0xf4e8e96e);
    Next(ABC, 50, 0x8fae6399, 0xf4e8e96e, 0x7b201df8, 0x7beb9700, 0x8fdcf407,
         0x00000018, 0xab9423a7, 15, 0xb298cefd);
    Next(ABC, 51, 0x7beb9700, 0xb298cefd, 0xf4e8e96e, 0x7b201df8, 0x42370791,
         0x00000000, 0xfc93a039, 21, 0x8bf025c4);
    Next(ABC, 52, 0x7b201df8, 0x8bf025c4, 0xb298cefd, 0xf4e8e96e, 0x396ff928,
         0x00000000, 0x655b59c3, 6, 0x06cc5e8a);
    Next(ABC, 53, 0xf4e8e96e, 0x06cc5e8a, 0x8bf025c4, 0xb298cefd, 0xc41f5a4e,
         0x00000000, 0x8f0ccc92, 10, 0x5b0d97aa);
    Next(ABC, 54, 0xb298cefd, 0x5b0d97aa, 0x06cc5e8a, 0x8bf025c4, 0x79c38131,
         0x00000000, 0xffeff47d, 15, 0x7d632dd0);
    Next(ABC, 55, 0x8bf025c4, 0x7d632dd0, 0x5b0d97aa, 0x06cc5e8a, 0xa67e3a5f,
         0x00000000, 0x85845dd1, 21, 0x3bfa2c27);
  }

  lemma AbcSteps8()
    ensures Steps(ABC, INITIAL, 64) ==
            State(0x310ade8f, 0xc08226b3, 0xe484b9d8, 0x624d8cb2)
  {
    hide ABC, Steps, T, Index;
    AbcSteps7();
    Constants4();
    Indices();
    AbcWord(2); AbcWord(4); AbcWord(6); AbcWord(8);
    AbcWord(9); AbcWord(11); AbcWord(13); AbcWord(15);
    Next(ABC, 56, 0x06cc5e8a, 0x3bfa2c27, 0x7d632dd0, 0x5b0d97aa, 0xc29941a7,
         0x00000000, 0x6fa87e4f, 6, 0x7f81cc35);
    Next(ABC, 57, 0x5b0d97aa, 0x7f81cc35, 0x3bfa2c27, 0x7d632dd0, 0xc467f218,
         0x00000000, 0xfe2ce6e0, 10, 0x094454ab);
    Next(ABC, 58, 0x7d632dd0, 0x094454ab, 0x7f81cc35, 0x3bfa2c27, 0xb2c41bce,
         0x00000000, 0xa3014314, 15, 0x4f9dbe3f);
    Next(ABC, 59, 0x3bfa2c27, 0x4f9dbe3f, 0x094454ab, 0x7f81cc35, 0xc6bbeb54,
         0x00000000, 0x4e0811a1, 21, 0x7327d604);
    Next(ABC, 60, 0x7f81cc35, 0x7327d604, 0x4f9dbe3f, 0x094454ab, 0xb822416b,
         0x00000000, 0xf7537e82, 6, 0x310ade8f);
    Next(ABC, 61, 0x094454ab, 0x310ade8f, 0x7327d604, 0x4f9dbe3f, 0xc24d09cb,
         0x00000000, 0xbd3af235, 10, 0x624d8cb2);
    Next(ABC, 62, 0x4f9dbe3f, 0x624d8cb2, 0x310ade8f, 0x7327d604, 0xdfd77374,
         0x00000000, 0x2ad7d2bb, 15, 0xe484b9d8);
    Next(ABC, 63, 0x7327d604, 0xe484b9d8, 0x624d8cb2, 0x310ade8f, 0x8cb8354a,
         0x00000000, 0xeb86d391, 21, 0xc08226b3);
  }

  lemma AbcSum()
    ensures Plus(INITIAL, State(0x310ade8f, 0xc08226b3, 0xe484b9d8, 0x624d8cb2)) ==
            State(0x98500190, 0xb04fd23c, 0x7d3f96d6, 0x727fe128)
  {
  }

  lemma AbcOctets()
    ensures Output(State(0x98500190, 0xb04fd23c, 0x7d3f96d6, 0x727fe128)) ==
            [0x90, 0x01, 0x50, 0x98, 0x3c, 0xd2, 0x4f, 0xb0,
             0xd6, 0x96, 0x3f, 0x7d, 0x28, 0xe1, 0x7f, 0x72]
  {
  }

  /** MD5 ("abc") = 900150983cd24fb0d6963f7d28e17f72 */
  lemma AbcDigest()
    ensures Digest([0x61, 0x62, 0x63]) ==
            [0x90, 0x01, 0x50, 0x98, 0x3c, 0xd2, 0x4f, 0xb0,
             0xd6, 0x96, 0x3f, 0x7d, 0x28, 0xe1, 0x7f, 0x72]
  {
    hide *;
    AbcWords();
    AbcSteps8();
    AbcSum();
    AbcOctets();
    ShortDigest([0x61, 0x62, 0x63], ABC, State(0x98500190, 0xb04fd23c, 0x7d3f96d6, 0x727fe128));
  }
}
