/** The digests of common/qmd5.h against the test suite of RFC 1321 (section A.5), and what its basic functions and
    its table mean (section 3.4). */
module Md5Known {
  import opened Arithmetic
  import opened Common
  import opened Md5Words
  import opened Md5Transform
  import opened Md5Streaming
  import opened Md5Digests

  // ---------------------------------------------------------------- the basic functions and the table

  /** F takes the bits of y where x is set and those of z elsewhere. */
  lemma FChooses(x: bv32, y: bv32, z: bv32)
    ensures Basic(F, x, y, z) & x == y & x && Basic(F, x, y, z) & !x == z & !x
  {
  }

  /** G takes the bits of x where z is set and those of y elsewhere. */
  lemma GChooses(x: bv32, y: bv32, z: bv32)
    ensures Basic(G, x, y, z) & z == x & z && Basic(G, x, y, z) & !z == y & !z
  {
  }

  /** H is set where an odd number of the three is. */
  lemma HIsParity(x: bv32, y: bv32, z: bv32)
    ensures Basic(H, x, y, z) ^ x ^ y == z
  {
  }

  /** I is the complement of y where x is set or z is clear, and y elsewhere. */
  lemma IComplements(x: bv32, y: bv32, z: bv32)
    ensures Basic(I, x, y, z) & (x | !z) == !y & (x | !z) && Basic(I, x, y, z) & (z & !x) == y & (z & !x)
  {
  }

  /** Step `n` of the table. */
  function OpAt(n: nat): Op { if n < |BUFFER_STEPS| then BUFFER_STEPS[n] else Op(F, 0, 1, 0) }

  lemma Joined(f: seq<Op>, g: seq<Op>, h: seq<Op>, i: seq<Op>, n: nat)
    requires |f| == |g| == |h| == |i| == 16 && n < 64
    ensures (f + g + h + i)[n] == if n < 16 then f[n] else if n < 32 then g[n - 16] else if n < 48 then h[n - 32]
                                  else i[n - 48]
  {
  }

  lemma OpIs(n: nat)
    requires n < 64
    ensures |BUFFER_STEPS| == 64
    ensures OpAt(n) == if n < 16 then BUFFER_F[n] else if n < 32 then BUFFER_G[n - 16]
                       else if n < 48 then BUFFER_H[n - 32] else BUFFER_I[n - 48]
  {
    Joined(BUFFER_F, BUFFER_G, BUFFER_H, BUFFER_I, n);
  }

  /** The basic function, the message word and the rotation of step `n`. */
  predicate Rule(n: nat, op: Op)
  {
    if n < 16 then op.round == F && op.k == n && op.s == [7, 12, 17, 22][n % 4]
    else if n < 32 then op.round == G && op.k == (5 * n + 1) % 16 && op.s == [5, 9, 14, 20][n % 4]
    else if n < 48 then op.round == H && op.k == (3 * n + 5) % 16 && op.s == [4, 11, 16, 23][n % 4]
    else op.round == I && op.k == (7 * n) % 16 && op.s == [6, 10, 15, 21][n % 4]
  }

  /** The 64 steps of the table follow the rule. */
  lemma TableRule(n: nat)
    requires n < 64
    ensures |BUFFER_STEPS| == 64 && Rule(n, OpAt(n))
  {
    OpIs(n);
    if n < 16 { RuleF(n); } else if n < 32 { RuleG(n); } else if n < 48 { RuleH(n); } else { RuleI(n); }
  }

  lemma RuleF(n: nat)
    requires n < 16
    ensures Rule(n, BUFFER_F[n])
  {
  }

  lemma RuleG(n: nat)
    requires 16 <= n < 32
    ensures Rule(n, BUFFER_G[n - 16])
  {
  }

  lemma RuleH(n: nat)
    requires 32 <= n < 48
    ensures Rule(n, BUFFER_H[n - 32])
  {
  }

  lemma RuleI(n: nat)
    requires 48 <= n < 64
    ensures Rule(n, BUFFER_I[n - 48])
  {
  }

  // ---------------------------------------------------------------- runs of the transform, word by word

  /** The words after each step, from the table and the words of the block. */
  ghost predicate Runs(at: nat -> Words, op: nat -> Op, x: nat -> bv32)
  {
    forall n: nat :: n < 64 ==> var v := at(n); at(n + 1) == Words(v.d, BufferStep(v, op(n), x(op(n).k)), v.b, v.c)
  }

  /** The digest of a message of less than a block, and of one of less than two. */
  lemma OneBlock(t: Transformer, m: Bytes, bits: int, length: Bytes, block: Bytes)
    requires |m| <= 55 && bits == 8 * |m|
    requires length == EncodeLength(bits) && block == m + [0x80] + Zeros(55 - |m|) + length
    ensures Digest(t, m) == EncodeWords(t(START, block))
  {
    BitsOf(m, bits);
    OnlyBlock(t, m, length, block);
  }

  lemma BitsOf(m: Bytes, bits: int)
    requires |m| <= 119 && bits == 8 * |m|
    ensures (8 * |m|) % TWO_64 == bits
  {
  }

  lemma OnlyBlock(t: Transformer, m: Bytes, length: Bytes, block: Bytes)
    requires |m| <= 55 && length == EncodeLength((8 * |m|) % TWO_64) && block == m + [0x80] + Zeros(55 - |m|) + length
    ensures Digest(t, m) == EncodeWords(t(START, block))
  {
    ShortPadded(m, length, block);
    FoldOne(t, block);
  }

  lemma ShortPadded(m: Bytes, length: Bytes, block: Bytes)
    requires |m| <= 55 && length == EncodeLength((8 * |m|) % TWO_64) && block == m + [0x80] + Zeros(55 - |m|) + length
    ensures Padded(m) == block
  {
    OneLastBlock(m);
    assert m[0..] == m && Padded(m)[0..64] == Padded(m);
  }

  lemma {:induction false} FoldOne(t: Transformer, p: Bytes)
    requires |p| == 64
    ensures Fold(t, p, 1) == t(START, p)
  {
    assert p[0..64] == p && Fold(t, p, 0) == START;
  }

  lemma TwoBlocks(t: Transformer, m: Bytes, bits: int, length: Bytes, last: Bytes)
    requires 64 <= |m| <= 119 && bits == 8 * |m|
    requires length == EncodeLength(bits) && last == m[64..] + [0x80] + Zeros(119 - |m|) + length
    ensures Digest(t, m) == EncodeWords(t(t(START, m[..64]), last))
  {
    BitsOf(m, bits);
    SecondBlock(t, m, length, last);
  }

  lemma SecondBlock(t: Transformer, m: Bytes, length: Bytes, last: Bytes)
    requires 64 <= |m| <= 119 && length == EncodeLength((8 * |m|) % TWO_64)
    requires last == m[64..] + [0x80] + Zeros(119 - |m|) + length
    ensures Digest(t, m) == EncodeWords(t(t(START, m[..64]), last))
  {
    LongPadded(m, length, last);
    FoldTwo(t, m[..64], last);
  }

  lemma LongPadded(m: Bytes, length: Bytes, last: Bytes)
    requires 64 <= |m| <= 119 && length == EncodeLength((8 * |m|) % TWO_64)
    requires last == m[64..] + [0x80] + Zeros(119 - |m|) + length
    ensures Padded(m) == m[..64] + last
  {
    OneLastBlock(m);
    SplitAt(Padded(m), m);
  }

  lemma SplitAt(p: Bytes, m: Bytes)
    requires |p| == 128 && 64 <= |m| && m <= p
    ensures p == m[..64] + p[64..128]
  {
  }

  lemma {:induction false} FoldTwo(t: Transformer, p: Bytes, q: Bytes)
    requires |p| == |q| == 64
    ensures Fold(t, p + q, 2) == t(t(START, p), q)
  {
    FoldOne(t, p);
    FoldPrefix(t, p, p + q, 1);
    assert (p + q)[64..128] == q;
  }

  lemma LengthBytes()
    ensures EncodeLength(8) == [8, 0, 0, 0, 0, 0, 0, 0] && EncodeLength(24) == [24, 0, 0, 0, 0, 0, 0, 0]
    ensures EncodeLength(640) == [0x80, 0x02, 0, 0, 0, 0, 0, 0]
  {
  }

  function WordOf(block: Bytes): nat -> bv32
    requires |block| == 64
  {
    (k: nat) => if k < 16 then DecodeWord(block, 4 * k) else 0
  }

  function RoundsOf(w: Words, block: Bytes): nat -> Words
    requires |block| == 64
  {
    (n: nat) => if n <= |BUFFER_STEPS| then Rounds(BufferStep, BUFFER_STEPS, w, block, n) else w
  }

  lemma TransformRuns(w: Words, block: Bytes)
    requires |block| == 64
    ensures Runs(RoundsOf(w, block), OpAt, WordOf(block)) && RoundsOf(w, block)(0) == w
    ensures Transform(w, block) == Plus(w, RoundsOf(w, block)(64))
  {
  }

  predicate TableF(op: nat -> Op)
  {
    && op(0) == Op(F, 0, 7, 0xd76aa478) && op(1) == Op(F, 1, 12, 0xe8c7b756)
    && op(2) == Op(F, 2, 17, 0x242070db) && op(3) == Op(F, 3, 22, 0xc1bdceee)
    && op(4) == Op(F, 4, 7, 0xf57c0faf) && op(5) == Op(F, 5, 12, 0x4787c62a)
    && op(6) == Op(F, 6, 17, 0xa8304613) && op(7) == Op(F, 7, 22, 0xfd469501)
    && op(8) == Op(F, 8, 7, 0x698098d8) && op(9) == Op(F, 9, 12, 0x8b44f7af)
    && op(10) == Op(F, 10, 17, 0xffff5bb1) && op(11) == Op(F, 11, 22, 0x895cd7be)
    && op(12) == Op(F, 12, 7, 0x6b901122) && op(13) == Op(F, 13, 12, 0xfd987193)
    && op(14) == Op(F, 14, 17, 0xa679438e) && op(15) == Op(F, 15, 22, 0x49b40821)
  }

  lemma HasF(op: nat -> Op)
    requires forall n: nat :: n < 16 ==> op(n) == BUFFER_F[n]
    ensures TableF(op)
  {
  }

  predicate TableG(op: nat -> Op)
  {
    && op(16) == Op(G, 1, 5, 0xf61e2562) && op(17) == Op(G, 6, 9, 0xc040b340)
    && op(18) == Op(G, 11, 14, 0x265e5a51) && op(19) == Op(G, 0, 20, 0xe9b6c7aa)
    && op(20) == Op(G, 5, 5, 0xd62f105d) && op(21) == Op(G, 10, 9, 0x02441453)
    && op(22) == Op(G, 15, 14, 0xd8a1e681) && op(23) == Op(G, 4, 20, 0xe7d3fbc8)
    && op(24) == Op(G, 9, 5, 0x21e1cde6) && op(25) == Op(G, 14, 9, 0xc33707d6)
    && op(26) == Op(G, 3, 14, 0xf4d50d87) && op(27) == Op(G, 8, 20, 0x455a14ed)
    && op(28) == Op(G, 13, 5, 0xa9e3e905) && op(29) == Op(G, 2, 9, 0xfcefa3f8)
    && op(30) == Op(G, 7, 14, 0x676f02d9) && op(31) == Op(G, 12, 20, 0x8d2a4c8a)
  }

  lemma HasG(op: nat -> Op)
    requires forall n: nat :: 16 <= n < 32 ==> op(n) == BUFFER_G[n - 16]
    ensures TableG(op)
  {
  }

  predicate TableH(op: nat -> Op)
  {
    && op(32) == Op(H, 5, 4, 0xfffa3942) && op(33) == Op(H, 8, 11, 0x8771f681)
    && op(34) == Op(H, 11, 16, 0x6d9d6122) && op(35) == Op(H, 14, 23, 0xfde5380c)
    && op(36) == Op(H, 1, 4, 0xa4beea44) && op(37) == Op(H, 4, 11, 0x4bdecfa9)
    && op(38) == Op(H, 7, 16, 0xf6bb4b60) && op(39) == Op(H, 10, 23, 0xbebfbc70)
    && op(40) == Op(H, 13, 4, 0x289b7ec6) && op(41) == Op(H, 0, 11, 0xeaa127fa)
    && op(42) == Op(H, 3, 16, 0xd4ef3085) && op(43) == Op(H, 6, 23, 0x04881d05)
    && op(44) == Op(H, 9, 4, 0xd9d4d039) && op(45) == Op(H, 12, 11, 0xe6db99e5)
    && op(46) == Op(H, 15, 16, 0x1fa27cf8) && op(47) == Op(H, 2, 23, 0xc4ac5665)
  }

  lemma HasH(op: nat -> Op)
    requires forall n: nat :: 32 <= n < 48 ==> op(n) == BUFFER_H[n - 32]
    ensures TableH(op)
  {
  }

  predicate TableI(op: nat -> Op)
  {
    && op(48) == Op(I, 0, 6, 0xf4292244) && op(49) == Op(I, 7, 10, 0x432aff97)
    && op(50) == Op(I, 14, 15, 0xab9423a7) && op(51) == Op(I, 5, 21, 0xfc93a039)
    && op(52) == Op(I, 12, 6, 0x655b59c3) && op(53) == Op(I, 3, 10, 0x8f0ccc92)
    && op(54) == Op(I, 10, 15, 0xffeff47d) && op(55) == Op(I, 1, 21, 0x85845dd1)
    && op(56) == Op(I, 8, 6, 0x6fa87e4f) && op(57) == Op(I, 15, 10, 0xfe2ce6e0)
    && op(58) == Op(I, 6, 15, 0xa3014314) && op(59) == Op(I, 13, 21, 0x4e0811a1)
    && op(60) == Op(I, 4, 6, 0xf7537e82) && op(61) == Op(I, 11, 10, 0xbd3af235)
    && op(62) == Op(I, 2, 15, 0x2ad7d2bb) && op(63) == Op(I, 9, 21, 0xeb86d391)
  }

  lemma HasI(op: nat -> Op)
    requires forall n: nat :: 48 <= n < 64 ==> op(n) == BUFFER_I[n - 48]
    ensures TableI(op)
  {
  }

  /** The table, entry by entry. */
  lemma TableEntries()
    ensures TableF(OpAt) && TableG(OpAt) && TableH(OpAt) && TableI(OpAt)
  {
    forall n: nat | n < 64
      ensures OpAt(n) == if n < 16 then BUFFER_F[n] else if n < 32 then BUFFER_G[n - 16]
                         else if n < 48 then BUFFER_H[n - 32] else BUFFER_I[n - 48]
    {
      OpIs(n);
    }
    HasF(OpAt);
    HasG(OpAt);
    HasH(OpAt);
    HasI(OpAt);
  }

  predicate AWords(x: nat -> bv32)
  {
    && x(0) == 0x00008061 && x(1) == 0x00000000 && x(2) == 0x00000000 && x(3) == 0x00000000
    && x(4) == 0x00000000 && x(5) == 0x00000000 && x(6) == 0x00000000 && x(7) == 0x00000000
    && x(8) == 0x00000000 && x(9) == 0x00000000 && x(10) == 0x00000000 && x(11) == 0x00000000
    && x(12) == 0x00000000 && x(13) == 0x00000000 && x(14) == 0x00000008 && x(15) == 0x00000000
  }

  lemma ARoundF(at: nat -> Words, op: nat -> Op, x: nat -> bv32)
    requires Runs(at, op, x) && TableF(op) && AWords(x)
    requires at(0) == Words(0x67452301, 0xefcdab89, 0x98badcfe, 0x10325476)
    ensures at(16) == Words(0x44244cf8, 0xf01e3ce2, 0x6360a45f, 0xd0fe9b27)
  {
    assert at(1).b == 0xa56017f4 && at(2).b == 0xf2d58361 && at(3).b == 0xe65857a7 && at(4).b == 0x607d9686;
    assert at(5).b == 0x3a9d5bcc && at(6).b == 0xe0a07db7 && at(7).b == 0xd31ddc83 && at(8).b == 0xa8af6da5;
    assert at(9).b == 0xbe580957 && at(10).b == 0xf386bea6 && at(11).b == 0xf5fdd933 && at(12).b == 0x68493d6a;
    assert at(13).b == 0x44244cf8 && at(14).b == 0xd0fe9b27 && at(15).b == 0x6360a45f && at(16).b == 0xf01e3ce2;
  }

  lemma ARoundG(at: nat -> Words, op: nat -> Op, x: nat -> bv32)
    requires Runs(at, op, x) && TableG(op) && AWords(x)
    requires at(16) == Words(0x44244cf8, 0xf01e3ce2, 0x6360a45f, 0xd0fe9b27)
    ensures at(32) == Words(0x93842e98, 0x3745961f, 0x94a2ebee, 0xc7043b64)
  {
    assert at(17).b == 0x9c341767 && at(18).b == 0x970ab3a9 && at(19).b == 0xe39ffd23 && at(20).b == 0x8d25cc66;
    assert at(21).b == 0x8c444930 && at(22).b == 0x7267097a && at(23).b == 0x2dacb8a3 && at(24).b == 0x373beab0;
    assert at(25).b == 0xf175e3ad && at(26).b == 0x9d5df67e && at(27).b == 0x87b7f475 && at(28).b == 0xc8f891b4;
    assert at(29).b == 0x93842e98 && at(30).b == 0xc7043b64 && at(31).b == 0x94a2ebee && at(32).b == 0x3745961f;
  }

  lemma ARoundH(at: nat -> Words, op: nat -> Op, x: nat -> bv32)
    requires Runs(at, op, x) && TableH(op) && AWords(x)
    requires at(32) == Words(0x93842e98, 0x3745961f, 0x94a2ebee, 0xc7043b64)
    ensures at(48) == Words(0x0ac50e18, 0x918f93bb, 0x8a4a6356, 0x79ca7845)
  {
    assert at(33).b == 0xbd607d1e && at(34).b == 0xa6f72085 && at(35).b == 0xbf8b4f98 && at(36).b == 0xdaf7f308;
    assert at(37).b == 0x35a82a7a && at(38).b == 0x89e0ec97 && at(39).b == 0x5abe099c && at(40).b == 0xcf7e60db;
    assert at(41).b == 0x75c151e2 && at(42).b == 0x942e0c86 && at(43).b == 0x0c0e6ac4 && at(44).b == 0xcc6f5e9e;
    assert at(45).b == 0x0ac50e18 && at(46).b == 0x79ca7845 && at(47).b == 0x8a4a6356 && at(48).b == 0x918f93bb;
  }

  lemma ARoundI(at: nat -> Words, op: nat -> Op, x: nat -> bv32)
    requires Runs(at, op, x) && TableI(op) && AWords(x)
    requires at(48) == Words(0x0ac50e18, 0x918f93bb, 0x8a4a6356, 0x79ca7845)
    ensures at(64) == Words(0x52309e0b, 0xb8e94637, 0x49dee633, 0x50f422f3)
  {
    assert at(49).b == 0xcab8fe42 && at(50).b == 0x6a4daeee && at(51).b == 0x36269c3f && at(52).b == 0x1ee405eb;
    assert at(53).b == 0x982c7861 && at(54).b == 0x6812a362 && at(55).b == 0x71fc7709 && at(56).b == 0x893501c0;
    assert at(57).b == 0xfebd62fd && at(58).b == 0x28936a74 && at(59).b == 0x53e33526 && at(60).b == 0xaa4d8ae3;
    assert at(61).b == 0x52309e0b && at(62).b == 0x50f422f3 && at(63).b == 0x49dee633 && at(64).b == 0xb8e94637;
  }

  lemma ABlock(block: Bytes)
    requires |block| == 64 && AWords(WordOf(block))
    ensures Transform(START, block) ==
              Words(0xb975c10c, 0xa8b6f1c0, 0xe299c331, 0x61267769)
  {
    var at, x := RoundsOf(START, block), WordOf(block);
    TransformRuns(START, block);
    TableEntries();
    ARoundF(at, OpAt, x);
    ARoundG(at, OpAt, x);
    ARoundH(at, OpAt, x);
    ARoundI(at, OpAt, x);
  }

  lemma APadded(block: Bytes)
    requires block == [0x61] + [0x80] + Zeros(54) + [8, 0, 0, 0, 0, 0, 0, 0]
    ensures |block| == 64 && AWords(WordOf(block))
  {
  }

  /** MD5("a") */
  lemma DigestA()
    ensures Digest(Transform, [0x61]) ==
              [0x0c, 0xc1, 0x75, 0xb9, 0xc0, 0xf1, 0xb6, 0xa8, 0x31, 0xc3, 0x99, 0xe2, 0x69, 0x77, 0x26, 0x61]
  {
    var block: Bytes := [0x61] + [0x80] + Zeros(54) + [8, 0, 0, 0, 0, 0, 0, 0];
    LengthBytes();
    OneBlock(Transform, [0x61], 8, [8, 0, 0, 0, 0, 0, 0, 0], block);
    APadded(block);
    ABlock(block);
    ABytes();
  }

  lemma ABytes()
    ensures EncodeWords(Words(0xb975c10c, 0xa8b6f1c0, 0xe299c331, 0x61267769)) ==
              [0x0c, 0xc1, 0x75, 0xb9, 0xc0, 0xf1, 0xb6, 0xa8, 0x31, 0xc3, 0x99, 0xe2, 0x69, 0x77, 0x26, 0x61]
  {
  }

  predicate AbcWords(x: nat -> bv32)
  {
    && x(0) == 0x80636261 && x(1) == 0x00000000 && x(2) == 0x00000000 && x(3) == 0x00000000
    && x(4) == 0x00000000 && x(5) == 0x00000000 && x(6) == 0x00000000 && x(7) == 0x00000000
    && x(8) == 0x00000000 && x(9) == 0x00000000 && x(10) == 0x00000000 && x(11) == 0x00000000
    && x(12) == 0x00000000 && x(13) == 0x00000000 && x(14) == 0x00000018 && x(15) == 0x00000000
  }

  lemma AbcRoundF(at: nat -> Words, op: nat -> Op, x: nat -> bv32)
    requires Runs(at, op, x) && TableF(op) && AbcWords(x)
    requires at(0) == Words(0x67452301, 0xefcdab89, 0x98badcfe, 0x10325476)
    ensures at(16) == Words(0xdda9b9a6, 0x72aff2e0, 0xe396856b, 0xa1051895)
  {
    assert at(1).b == 0xd6d117b4 && at(2).b == 0x344a8432 && at(3).b == 0x2f6fbd72 && at(4).b == 0x7ad956f2;
    assert at(5).b == 0xc73741ef && at(6).b == 0x8bac3051 && at(7).b == 0x207dc67b && at(8).b == 0x928d99f6;
    assert at(9).b == 0x854b3712 && at(10).b == 0x74e2f284 && at(11).b == 0x3020401c && at(12).b == 0x5ed49596;
    assert at(13).b == 0xdda9b9a6 && at(14).b == 0xa1051895 && at(15).b == 0xe396856b && at(16).b == 0x72aff2e0;
  }

  lemma AbcRoundG(at: nat -> Words, op: nat -> Op, x: nat -> bv32)
    requires Runs(at, op, x) && TableG(op) && AbcWords(x)
    requires at(16) == Words(0xdda9b9a6, 0x72aff2e0, 0xe396856b, 0xa1051895)
    ensures at(32) == Words(0x790a77fb, 0x726342d3, 0xa62884aa, 0x9f47e4f8)
  {
    assert at(17).b == 0x3e9e9126 && at(18).b == 0x4a1d804e && at(19).b == 0xe25e1652 && at(20).b == 0xb5b204e4;
    assert at(21).b == 0x59a8ffda && at(22).b == 0x6d002f1e && at(23).b == 0xabfc7920 && at(24).b == 0x47092c07;
    assert at(25).b == 0xb7f268cf && at(26).b == 0x09388eff && at(27).b == 0xfe1623b1 && at(28).b == 0x786acb8f;
    assert at(29).b == 0x790a77fb && at(30).b == 0x9f47e4f8 && at(31).b == 0xa62884aa && at(32).b == 0x726342d3;
  }

  lemma AbcRoundH(at: nat -> Words, op: nat -> Op, x: nat -> bv32)
    requires Runs(at, op, x) && TableH(op) && AbcWords(x)
    requires at(32) == Words(0x790a77fb, 0x726342d3, 0xa62884aa, 0x9f47e4f8)
    ensures at(48) == Words(0x7f2e507b, 0x7beb9700, 0x8fae6399, 0x99d9679d)
  {
    assert at(33).b == 0xb3707ebf && at(34).b == 0x60127b2e && at(35).b == 0x8d212ff5 && at(36).b == 0x3b0875c7;
    assert at(37).b == 0x21b117b9 && at(38).b == 0x6e7429d5 && at(39).b == 0x3575227e && at(40).b == 0x5a2f5ea5;
    assert at(41).b == 0x11de1779 && at(42).b == 0xfadcaa38 && at(43).b == 0x31c465ca && at(44).b == 0x4c6124f4;
    assert at(45).b == 0x7f2e507b && at(46).b == 0x99d9679d && at(47).b == 0x8fae6399 && at(48).b == 0x7beb9700;
  }

  lemma AbcRoundI(at: nat -> Words, op: nat -> Op, x: nat -> bv32)
    requires Runs(at, op, x) && TableI(op) && AbcWords(x)
    requires at(48) == Words(0x7f2e507b, 0x7beb9700, 0x8fae6399, 0x99d9679d)
    ensures at(64) == Words(0x310ade8f, 0xc08226b3, 0xe484b9d8, 0x624d8cb2)
  {
    assert at(49).b == 0x7b201df8 && at(50).b == 0xf4e8e96e && at(51).b == 0xb298cefd && at(52).b == 0x8bf025c4;
    assert at(53).b == 0x06cc5e8a && at(54).b == 0x5b0d97aa && at(55).b == 0x7d632dd0 && at(56).b == 0x3bfa2c27;
    assert at(57).b == 0x7f81cc35 && at(58).b == 0x094454ab && at(59).b == 0x4f9dbe3f && at(60).b == 0x7327d604;
    assert at(61).b == 0x310ade8f && at(62).b == 0x624d8cb2 && at(63).b == 0xe484b9d8 && at(64).b == 0xc08226b3;
  }

  lemma AbcBlock(block: Bytes)
    requires |block| == 64 && AbcWords(WordOf(block))
    ensures Transform(START, block) ==
              Words(0x98500190, 0xb04fd23c, 0x7d3f96d6, 0x727fe128)
  {
    var at, x := RoundsOf(START, block), WordOf(block);
    TransformRuns(START, block);
    TableEntries();
    AbcRoundF(at, OpAt, x);
    AbcRoundG(at, OpAt, x);
    AbcRoundH(at, OpAt, x);
    AbcRoundI(at, OpAt, x);
  }

  lemma AbcPadded(block: Bytes)
    requires block == [0x61, 0x62, 0x63] + [0x80] + Zeros(52) + [24, 0, 0, 0, 0, 0, 0, 0]
    ensures |block| == 64 && AbcWords(WordOf(block))
  {
  }

  /** MD5("abc") */
  lemma DigestAbc()
    ensures Digest(Transform, [0x61, 0x62, 0x63]) ==
              [0x90, 0x01, 0x50, 0x98, 0x3c, 0xd2, 0x4f, 0xb0, 0xd6, 0x96, 0x3f, 0x7d, 0x28, 0xe1, 0x7f, 0x72]
  {
    var block: Bytes := [0x61, 0x62, 0x63] + [0x80] + Zeros(52) + [24, 0, 0, 0, 0, 0, 0, 0];
    LengthBytes();
    OneBlock(Transform, [0x61, 0x62, 0x63], 24, [24, 0, 0, 0, 0, 0, 0, 0], block);
    AbcPadded(block);
    AbcBlock(block);
    AbcBytes();
  }

  lemma AbcBytes()
    ensures EncodeWords(Words(0x98500190, 0xb04fd23c, 0x7d3f96d6, 0x727fe128)) ==
              [0x90, 0x01, 0x50, 0x98, 0x3c, 0xd2, 0x4f, 0xb0, 0xd6, 0x96, 0x3f, 0x7d, 0x28, 0xe1, 0x7f, 0x72]
  {
  }

  predicate DigitsFirstWords(x: nat -> bv32)
  {
    && x(0) == 0x34333231 && x(1) == 0x38373635 && x(2) == 0x32313039 && x(3) == 0x36353433
    && x(4) == 0x30393837 && x(5) == 0x34333231 && x(6) == 0x38373635 && x(7) == 0x32313039
    && x(8) == 0x36353433 && x(9) == 0x30393837 && x(10) == 0x34333231 && x(11) == 0x38373635
    && x(12) == 0x32313039 && x(13) == 0x36353433 && x(14) == 0x30393837 && x(15) == 0x34333231
  }

  lemma DigitsFirstRoundF(at: nat -> Words, op: nat -> Op, x: nat -> bv32)
    requires Runs(at, op, x) && TableF(op) && DigitsFirstWords(x)
    requires at(0) == Words(0x67452301, 0xefcdab89, 0x98badcfe, 0x10325476)
    ensures at(16) == Words(0x5157e49e, 0xaf506a03, 0x27e983a0, 0xffac907e)
  {
    assert at(1).b == 0xbeb8ff8e && at(2).b == 0x7d989d89 && at(3).b == 0xf8cdf95d && at(4).b == 0x862797b0;
    assert at(5).b == 0x8c17de9f && at(6).b == 0xc0f32d81 && at(7).b == 0xe99fec1b && at(8).b == 0xc57e78c1;
    assert at(9).b == 0x7c0aceb7 && at(10).b == 0x8869d2d8 && at(11).b == 0x5186a8ba && at(12).b == 0xa5f36f8d;
    assert at(13).b == 0x5157e49e && at(14).b == 0xffac907e && at(15).b == 0x27e983a0 && at(16).b == 0xaf506a03;
  }

  lemma DigitsFirstRoundG(at: nat -> Words, op: nat -> Op, x: nat -> bv32)
    requires Runs(at, op, x) && TableG(op) && DigitsFirstWords(x)
    requires at(16) == Words(0x5157e49e, 0xaf506a03, 0x27e983a0, 0xffac907e)
    ensures at(32) == Words(0xf8bcfbb0, 0x1bf25662, 0x99a0f1b8, 0xd760ed39)
  {
    assert at(17).b == 0x8d18e0e8 && at(18).b == 0x07de0df2 && at(19).b == 0xef223167 && at(20).b == 0x04280170;
    assert at(21).b == 0x78929ee0 && at(22).b == 0x375c6c2c && at(23).b == 0xb18aca50 && at(24).b == 0xad400a91;
    assert at(25).b == 0xbb45f43f && at(26).b == 0xd61f8a0f && at(27).b == 0x98ade6b5 && at(28).b == 0xb70e35a9;
    assert at(29).b == 0xf8bcfbb0 && at(30).b == 0xd760ed39 && at(31).b == 0x99a0f1b8 && at(32).b == 0x1bf25662;
  }

  lemma DigitsFirstRoundH(at: nat -> Words, op: nat -> Op, x: nat -> bv32)
    requires Runs(at, op, x) && TableH(op) && DigitsFirstWords(x)
    requires at(32) == Words(0xf8bcfbb0, 0x1bf25662, 0x99a0f1b8, 0xd760ed39)
    ensures at(48) == Words(0x697032ec, 0xdb4197da, 0xefc2c171, 0xfa597bfc)
  {
    assert at(33).b == 0x3dbd76ca && at(34).b == 0xfd056171 && at(35).b == 0xc7ed7c30 && at(36).b == 0xe0162f49;
    assert at(37).b == 0x3b32c408 && at(38).b == 0x7338d8b7 && at(39).b == 0x9ef871ad && at(40).b == 0x1d4d6f72;
    assert at(41).b == 0xc661460a && at(42).b == 0xd2bf04c9 && at(43).b == 0xd6d5b879 && at(44).b == 0x89e3c4d7;
    assert at(45).b == 0x697032ec && at(46).b == 0xfa597bfc && at(47).b == 0xefc2c171 && at(48).b == 0xdb4197da;
  }

  lemma DigitsFirstRoundI(at: nat -> Words, op: nat -> Op, x: nat -> bv32)
    requires Runs(at, op, x) && TableI(op) && DigitsFirstWords(x)
    requires at(48) == Words(0x697032ec, 0xdb4197da, 0xefc2c171, 0xfa597bfc)
    ensures at(64) == Words(0x614868eb, 0xb4d33102, 0x5133129b, 0xa09f38a7)
  {
    assert at(49).b == 0x57b91aca && at(50).b == 0x210c9ebc && at(51).b == 0x21efbd88 && at(52).b == 0xcaa25b01;
    assert at(53).b == 0x633d3f7c && at(54).b == 0x1a4d3beb && at(55).b == 0xccaa1524 && at(56).b == 0x7713f5df;
    assert at(57).b == 0x8448b430 && at(58).b == 0x71c93463 && at(59).b == 0x7e294727 && at(60).b == 0x660a801d;
    assert at(61).b == 0x614868eb && at(62).b == 0xa09f38a7 && at(63).b == 0x5133129b && at(64).b == 0xb4d33102;
  }

  lemma DigitsFirstBlock(block: Bytes)
    requires |block| == 64 && DigitsFirstWords(WordOf(block))
    ensures Transform(START, block) ==
              Words(0xc88d8bec, 0xa4a0dc8b, 0xe9edef99, 0xb0d18d1d)
  {
    var at, x := RoundsOf(START, block), WordOf(block);
    TransformRuns(START, block);
    TableEntries();
    DigitsFirstRoundF(at, OpAt, x);
    DigitsFirstRoundG(at, OpAt, x);
    DigitsFirstRoundH(at, OpAt, x);
    DigitsFirstRoundI(at, OpAt, x);
  }

  predicate DigitsLastWords(x: nat -> bv32)
  {
    && x(0) == 0x38373635 && x(1) == 0x32313039 && x(2) == 0x36353433 && x(3) == 0x30393837
    && x(4) == 0x00000080 && x(5) == 0x00000000 && x(6) == 0x00000000 && x(7) == 0x00000000
    && x(8) == 0x00000000 && x(9) == 0x00000000 && x(10) == 0x00000000 && x(11) == 0x00000000
    && x(12) == 0x00000000 && x(13) == 0x00000000 && x(14) == 0x00000280 && x(15) == 0x00000000
  }

  lemma DigitsLastRoundF(at: nat -> Words, op: nat -> Op, x: nat -> bv32)
    requires Runs(at, op, x) && TableF(op) && DigitsLastWords(x)
    requires at(0) == Words(0xc88d8bec, 0xa4a0dc8b, 0xe9edef99, 0xb0d18d1d)
    ensures at(16) == Words(0xdb4ff71c, 0x58b12eab, 0x04396a39, 0x9b6b4960)
  {
    assert at(1).b == 0x353af7cf && at(2).b == 0x3a4f735a && at(3).b == 0x63356537 && at(4).b == 0x45e88f2c;
    assert at(5).b == 0x3527497e && at(6).b == 0xab92660e && at(7).b == 0x948347ae && at(8).b == 0x377c7d0a;
    assert at(9).b == 0xcc912f27 && at(10).b == 0x6945a3d5 && at(11).b == 0xae23894d && at(12).b == 0xb9ede40c;
    assert at(13).b == 0xdb4ff71c && at(14).b == 0x9b6b4960 && at(15).b == 0x04396a39 && at(16).b == 0x58b12eab;
  }

  lemma DigitsLastRoundG(at: nat -> Words, op: nat -> Op, x: nat -> bv32)
    requires Runs(at, op, x) && TableG(op) && DigitsLastWords(x)
    requires at(16) == Words(0xdb4ff71c, 0x58b12eab, 0x04396a39, 0x9b6b4960)
    ensures at(32) == Words(0x8761f38e, 0x67092c33, 0x061bc867, 0x7a516116)
  {
    assert at(17).b == 0x52c00cae && at(18).b == 0xaad2a216 && at(19).b == 0xa476af6f && at(20).b == 0x50f8de8c;
    assert at(21).b == 0x0d6e6d91 && at(22).b == 0x17d64195 && at(23).b == 0xd5b7a850 && at(24).b == 0x043cb080;
    assert at(25).b == 0x74f9377e && at(26).b == 0x01f2addd && at(27).b == 0xe775c8ca && at(28).b == 0xcb00b96e;
    assert at(29).b == 0x8761f38e && at(30).b == 0x7a516116 && at(31).b == 0x061bc867 && at(32).b == 0x67092c33;
  }

  lemma DigitsLastRoundH(at: nat -> Words, op: nat -> Op, x: nat -> bv32)
    requires Runs(at, op, x) && TableH(op) && DigitsLastWords(x)
    requires at(32) == Words(0x8761f38e, 0x67092c33, 0x061bc867, 0x7a516116)
    ensures at(48) == Words(0x71123afa, 0x1df7010a, 0xe6a8a386, 0xdc9c8ddb)
  {
    assert at(33).b == 0x91044d5d && at(34).b == 0x610954eb && at(35).b == 0xc0175fa8 && at(36).b == 0x2ee1e3fe;
    assert at(37).b == 0xae26ed7d && at(38).b == 0x71d8ecea && at(39).b == 0xff4a94dc && at(40).b == 0xdbd1bff6;
    assert at(41).b == 0x9c350028 && at(42).b == 0x97e5da92 && at(43).b == 0xfacaaf06 && at(44).b == 0x56b3692f;
    assert at(45).b == 0x71123afa && at(46).b == 0xdc9c8ddb && at(47).b == 0xe6a8a386 && at(48).b == 0x1df7010a;
  }

  lemma DigitsLastRoundI(at: nat -> Words, op: nat -> Op, x: nat -> bv32)
    requires Runs(at, op, x) && TableI(op) && DigitsLastWords(x)
    requires at(48) == Words(0x71123afa, 0x1df7010a, 0xe6a8a386, 0xdc9c8ddb)
    ensures at(64) == Words(0xda67616b, 0xb12906a0, 0x44ec5a13, 0xc9e47a04)
  {
    assert at(49).b == 0xd29007e7 && at(50).b == 0x7241a77e && at(51).b == 0xd3248109 && at(52).b == 0xc8797828;
    assert at(53).b == 0x7a504abd && at(54).b == 0x211cc65d && at(55).b == 0xa290d6ce && at(56).b == 0x9b31b114;
    assert at(57).b == 0x723fd22d && at(58).b == 0xd21d6a3b && at(59).b == 0x3d79cf74 && at(60).b == 0x4dc4f33d;
    assert at(61).b == 0xda67616b && at(62).b == 0xc9e47a04 && at(63).b == 0x44ec5a13 && at(64).b == 0xb12906a0;
  }

  lemma DigitsLastBlock(block: Bytes)
    requires |block| == 64 && DigitsLastWords(WordOf(block))
    ensures Transform(Words(0xc88d8bec, 0xa4a0dc8b, 0xe9edef99, 0xb0d18d1d), block) ==
              Words(0xa2f4ed57, 0x55c9e32b, 0x2eda49ac, 0x7ab60721)
  {
    var at, x := RoundsOf(Words(0xc88d8bec, 0xa4a0dc8b, 0xe9edef99, 0xb0d18d1d), block), WordOf(block);
    TransformRuns(Words(0xc88d8bec, 0xa4a0dc8b, 0xe9edef99, 0xb0d18d1d), block);
    TableEntries();
    DigitsLastRoundF(at, OpAt, x);
    DigitsLastRoundG(at, OpAt, x);
    DigitsLastRoundH(at, OpAt, x);
    DigitsLastRoundI(at, OpAt, x);
  }

  /** The digits `1234567890`. */
  function Digit(r: nat): bv8
  {
    if r == 0 then 0x31 else if r == 1 then 0x32 else if r == 2 then 0x33 else if r == 3 then 0x34
    else if r == 4 then 0x35 else if r == 5 then 0x36 else if r == 6 then 0x37 else if r == 7 then 0x38
    else if r == 8 then 0x39 else 0x30
  }

  function DigitAt(i: nat): bv8 { Digit(i % 10) }

  function EightyDigits(): (m: Bytes)
    ensures |m| == 80 && forall i :: 0 <= i < 80 ==> m[i] == DigitAt(i)
  {
    seq(80, i requires i >= 0 => DigitAt(i))
  }

  lemma DigitsFirstPadded(block: Bytes)
    requires block == EightyDigits()[..64]
    ensures |block| == 64 && DigitsFirstWords(WordOf(block))
  {
    forall k: nat | k < 16 ensures WordOf(block)(k) == DigitWord(k) { DigitsOfWord(block, 4 * k, k); }
    SixteenDigitWords(WordOf(block));
  }

  lemma SixteenDigitWords(x: nat -> bv32)
    requires forall k: nat :: k < 16 ==> x(k) == DigitWord(k)
    ensures DigitsFirstWords(x)
  {
  }

  /** The five words that these digits fall into. */
  function FiveWords(r: nat): bv32
  {
    if r == 0 then 0x34333231 else if r == 1 then 0x38373635 else if r == 2 then 0x32313039
    else if r == 3 then 0x36353433 else 0x30393837
  }

  function DigitWord(k: nat): bv32 { FiveWords(k % 5) }

  lemma DigitsOfWord(block: Bytes, i: nat, k: nat)
    requires i + 4 <= |block|
    requires block[i..i + 4] == [DigitAt(4 * k), DigitAt(4 * k + 1), DigitAt(4 * k + 2), DigitAt(4 * k + 3)]
    ensures DecodeWord(block, i) == DigitWord(k)
  {
    SameWord(block, i, block[i..i + 4]);
    DigitsInWord(k);
  }

  lemma SameWord(block: Bytes, i: nat, b: Bytes)
    requires i + 4 <= |block| && b == block[i..i + 4]
    ensures DecodeWord(block, i) == DecodeWord(b, 0)
  {
  }

  lemma DigitsInWord(k: nat)
    ensures DecodeWord([DigitAt(4 * k), DigitAt(4 * k + 1), DigitAt(4 * k + 2), DigitAt(4 * k + 3)], 0) == DigitWord(k)
  {
    var r, z := k % 5, 2 * (k / 5);
    var d := if r == 0 then 0 else if r == 1 then 4 else if r == 2 then 8 else if r == 3 then 2 else 6;
    var c := if r < 3 then z else z + 1;
    assert 4 * k == 10 * c + d;
    Quotient(4 * k, 10, c, d);
    Quotient(4 * k + 1, 10, c, d + 1);
    Quotient(4 * k + 2, 10, if d == 8 then c + 1 else c, if d == 8 then 0 else d + 2);
    Quotient(4 * k + 3, 10, if d == 8 then c + 1 else c, if d == 8 then 1 else d + 3);
    FromDigits(r, d);
  }

  lemma FromDigits(r: nat, d: nat)
    requires (r == 0 && d == 0) || (r == 1 && d == 4) || (r == 2 && d == 8) || (r == 3 && d == 2) || (r == 4 && d == 6)
    ensures var e, f := if d == 8 then 0 else d + 2, if d == 8 then 1 else d + 3;
            DecodeWord([Digit(d), Digit(d + 1), Digit(e), Digit(f)], 0) == FiveWords(r)
  {
    if d == 0 {} else if d == 4 {} else if d == 8 {} else if d == 2 {} else {}
  }

  lemma DigitsLastPadded(block: Bytes)
    requires block == EightyDigits()[64..] + [0x80] + Zeros(39) + [0x80, 0x02, 0, 0, 0, 0, 0, 0]
    ensures |block| == 64 && DigitsLastWords(WordOf(block))
  {
    assert block[16..] == [0x80] + Zeros(39) + [0x80, 0x02, 0, 0, 0, 0, 0, 0];
    DigitsLastFront(block, EightyDigits());
    DigitsLastZeros(block);
    LastWords(WordOf(block));
  }

  lemma LastWords(x: nat -> bv32)
    requires x(0) == DigitWord(16) && x(1) == DigitWord(17) && x(2) == DigitWord(18) && x(3) == DigitWord(19)
    requires x(4) == 0x80 && x(14) == 0x280 && x(15) == 0 && forall k: nat :: 5 <= k < 14 ==> x(k) == 0
    ensures DigitsLastWords(x)
  {
  }

  lemma DigitsLastFront(block: Bytes, m: Bytes)
    requires |block| == 64 && |m| == 80 && block[..16] == m[64..] && forall i :: 0 <= i < 80 ==> m[i] == DigitAt(i)
    ensures DecodeWord(block, 0) == DigitWord(16) && DecodeWord(block, 4) == DigitWord(17)
    ensures DecodeWord(block, 8) == DigitWord(18) && DecodeWord(block, 12) == DigitWord(19)
  {
    DigitSlice(block, m, 0, 16);
    DigitSlice(block, m, 4, 17);
    DigitSlice(block, m, 8, 18);
    DigitSlice(block, m, 12, 19);
  }

  lemma DigitSlice(block: Bytes, m: Bytes, i: nat, k: nat)
    requires |block| == 64 && |m| == 80 && block[..16] == m[64..] && forall i :: 0 <= i < 80 ==> m[i] == DigitAt(i)
    requires i <= 12 && 4 * k == 64 + i
    ensures DecodeWord(block, i) == DigitWord(k)
  {
    SliceOfEnd(block, m, i);
    assert m[4 * k..4 * k + 4] == [DigitAt(4 * k), DigitAt(4 * k + 1), DigitAt(4 * k + 2), DigitAt(4 * k + 3)];
    DigitsOfWord(block, i, k);
  }

  lemma SliceOfEnd(block: Bytes, m: Bytes, i: nat)
    requires |block| == 64 && |m| == 80 && block[..16] == m[64..] && i <= 12
    ensures block[i..i + 4] == m[64 + i..68 + i]
  {
    assert block[i..i + 4] == block[..16][i..i + 4];
  }

  lemma DigitsLastZeros(block: Bytes)
    requires |block| == 64 && block[16..] == [0x80] + Zeros(39) + [0x80, 0x02, 0, 0, 0, 0, 0, 0]
    ensures DecodeWord(block, 16) == 0x80 && DecodeWord(block, 56) == 0x280 && DecodeWord(block, 60) == 0
    ensures forall k :: 5 <= k < 14 ==> DecodeWord(block, 4 * k) == 0
  {
    assert forall i :: 16 <= i < 64 ==> block[i] == block[16..][i - 16];
  }

  /** MD5 of eighty digits, a message of two blocks. */
  lemma DigestDigits()
    ensures Digest(Transform, EightyDigits()) ==
              [0x57, 0xed, 0xf4, 0xa2, 0x2b, 0xe3, 0xc9, 0x55, 0xac, 0x49, 0xda, 0x2e, 0x21, 0x07, 0xb6, 0x7a]
  {
    var m := EightyDigits();
    var last: Bytes := m[64..] + [0x80] + Zeros(39) + [0x80, 0x02, 0, 0, 0, 0, 0, 0];
    LengthBytes();
    TwoBlocks(Transform, m, 640, [0x80, 0x02, 0, 0, 0, 0, 0, 0], last);
    DigitsFirstPadded(m[..64]);
    DigitsFirstBlock(m[..64]);
    DigitsLastPadded(last);
    DigitsLastBlock(last);
    DigitsBytes();
  }

  lemma DigitsBytes()
    ensures EncodeWords(Words(0xa2f4ed57, 0x55c9e32b, 0x2eda49ac, 0x7ab60721)) ==
              [0x57, 0xed, 0xf4, 0xa2, 0x2b, 0xe3, 0xc9, 0x55, 0xac, 0x49, 0xda, 0x2e, 0x21, 0x07, 0xb6, 0x7a]
  {
  }
}
