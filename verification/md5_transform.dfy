/** The words and the block transform of the two MD5 implementations, common/qmd5.h and
    common/qmd5file.h. */
module Md5Words {
  import opened Common

  const TWO_29 := 0x2000_0000
  const TWO_32 := 0x1_0000_0000
  const TWO_64 := 0x1_0000_0000_0000_0000

  // ---------------------------------------------------------------- words and bytes

  /** `Decode`: four bytes, low byte first. */
  function DecodeWord(b: Bytes, i: nat): bv32
    requires i + 4 <= |b|
  {
    (b[i] as bv32) | ((b[i + 1] as bv32) << 8) | ((b[i + 2] as bv32) << 16) | ((b[i + 3] as bv32) << 24)
  }

  /** `Encode`: the same order. */
  function EncodeWord(w: bv32): (r: Bytes)
    ensures |r| == 4
  {
    [(w & 0xff) as bv8, ((w >> 8) & 0xff) as bv8, ((w >> 16) & 0xff) as bv8, ((w >> 24) & 0xff) as bv8]
  }

  /** A 64-bit number as two words, low word first. */
  function EncodeLength(n: int): (r: Bytes)
    requires 0 <= n < TWO_64
    ensures |r| == 8
  {
    EncodeWord((n % TWO_32) as bv32) + EncodeWord((n / TWO_32) as bv32)
  }

  datatype Words = Words(a: bv32, b: bv32, c: bv32, d: bv32)

  function EncodeWords(w: Words): (r: Bytes)
    ensures |r| == 16
  {
    EncodeWord(w.a) + EncodeWord(w.b) + EncodeWord(w.c) + EncodeWord(w.d)
  }
}

module Md5Transform {
  import opened Common
  import opened Md5Words

  datatype Round = F | G | H | I

  type Index = n: nat | n < 16

  type Amount = n: nat | 0 < n < 32 witness 1

  /** One of the 64 steps: basic function, message word, rotation, constant. */
  datatype Op = Op(round: Round, k: Index, s: Amount, ac: bv32)

  /** The steps of `MD5Transform`; the roles of a, b, c, d rotate by one place from step to step. */
  const BUFFER_F: seq<Op> := [
    Op(F, 0, 7, 0xd76aa478), Op(F, 1, 12, 0xe8c7b756), Op(F, 2, 17, 0x242070db), Op(F, 3, 22, 0xc1bdceee),
    Op(F, 4, 7, 0xf57c0faf), Op(F, 5, 12, 0x4787c62a), Op(F, 6, 17, 0xa8304613), Op(F, 7, 22, 0xfd469501),
    Op(F, 8, 7, 0x698098d8), Op(F, 9, 12, 0x8b44f7af), Op(F, 10, 17, 0xffff5bb1), Op(F, 11, 22, 0x895cd7be),
    Op(F, 12, 7, 0x6b901122), Op(F, 13, 12, 0xfd987193), Op(F, 14, 17, 0xa679438e), Op(F, 15, 22, 0x49b40821)
  ]

  const BUFFER_G: seq<Op> := [
    Op(G, 1, 5, 0xf61e2562), Op(G, 6, 9, 0xc040b340), Op(G, 11, 14, 0x265e5a51), Op(G, 0, 20, 0xe9b6c7aa),
    Op(G, 5, 5, 0xd62f105d), Op(G, 10, 9, 0x02441453), Op(G, 15, 14, 0xd8a1e681), Op(G, 4, 20, 0xe7d3fbc8),
    Op(G, 9, 5, 0x21e1cde6), Op(G, 14, 9, 0xc33707d6), Op(G, 3, 14, 0xf4d50d87), Op(G, 8, 20, 0x455a14ed),
    Op(G, 13, 5, 0xa9e3e905), Op(G, 2, 9, 0xfcefa3f8), Op(G, 7, 14, 0x676f02d9), Op(G, 12, 20, 0x8d2a4c8a)
  ]

  const BUFFER_H: seq<Op> := [
    Op(H, 5, 4, 0xfffa3942), Op(H, 8, 11, 0x8771f681), Op(H, 11, 16, 0x6d9d6122), Op(H, 14, 23, 0xfde5380c),
    Op(H, 1, 4, 0xa4beea44), Op(H, 4, 11, 0x4bdecfa9), Op(H, 7, 16, 0xf6bb4b60), Op(H, 10, 23, 0xbebfbc70),
    Op(H, 13, 4, 0x289b7ec6), Op(H, 0, 11, 0xeaa127fa), Op(H, 3, 16, 0xd4ef3085), Op(H, 6, 23, 0x04881d05),
    Op(H, 9, 4, 0xd9d4d039), Op(H, 12, 11, 0xe6db99e5), Op(H, 15, 16, 0x1fa27cf8), Op(H, 2, 23, 0xc4ac5665)
  ]

  const BUFFER_I: seq<Op> := [
    Op(I, 0, 6, 0xf4292244), Op(I, 7, 10, 0x432aff97), Op(I, 14, 15, 0xab9423a7), Op(I, 5, 21, 0xfc93a039),
    Op(I, 12, 6, 0x655b59c3), Op(I, 3, 10, 0x8f0ccc92), Op(I, 10, 15, 0xffeff47d), Op(I, 1, 21, 0x85845dd1),
    Op(I, 8, 6, 0x6fa87e4f), Op(I, 15, 10, 0xfe2ce6e0), Op(I, 6, 15, 0xa3014314), Op(I, 13, 21, 0x4e0811a1),
    Op(I, 4, 6, 0xf7537e82), Op(I, 11, 10, 0xbd3af235), Op(I, 2, 15, 0x2ad7d2bb), Op(I, 9, 21, 0xeb86d391)
  ]

  const BUFFER_STEPS: seq<Op> := BUFFER_F + BUFFER_G + BUFFER_H + BUFFER_I

  /** The steps of `md5_calc`. */
  const FILE_F: seq<Op> := [
    Op(F, 0, 7, 0xd76aa478), Op(F, 1, 12, 0xe8c7b756), Op(F, 2, 17, 0x242070db), Op(F, 3, 22, 0xc1bdceee),
    Op(F, 4, 7, 0xf57c0faf), Op(F, 5, 12, 0x4787c62a), Op(F, 6, 17, 0xa8304613), Op(F, 7, 22, 0xfd469501),
    Op(F, 8, 7, 0x698098d8), Op(F, 9, 12, 0x8b44f7af), Op(F, 10, 17, 0xffff5bb1), Op(F, 11, 22, 0x895cd7be),
    Op(F, 12, 7, 0x6b901122), Op(F, 13, 12, 0xfd987193), Op(F, 14, 17, 0xa679438e), Op(F, 15, 22, 0x49b40821)
  ]

  const FILE_G: seq<Op> := [
    Op(G, 1, 5, 0xf61e2562), Op(G, 6, 9, 0xc040b340), Op(G, 11, 14, 0x265e5a51), Op(G, 0, 20, 0xe9b6c7aa),
    Op(G, 5, 5, 0xd62f105d), Op(G, 10, 9, 0x02441453), Op(G, 15, 14, 0xd8a1e681), Op(G, 4, 20, 0xe7d3fbc8),
    Op(G, 9, 5, 0x21e1cde6), Op(G, 14, 9, 0xc33707d6), Op(G, 3, 14, 0xf4d50d87), Op(G, 8, 20, 0x455a14ed),
    Op(G, 13, 5, 0xa9e3e905), Op(G, 2, 9, 0xfcefa3f8), Op(G, 7, 14, 0x676f02d9), Op(G, 12, 20, 0x8d2a4c8a)
  ]

  const FILE_H: seq<Op> := [
    Op(H, 5, 4, 0xfffa3942), Op(H, 8, 11, 0x8771f681), Op(H, 11, 16, 0x6d9d6122), Op(H, 14, 23, 0xfde5380c),
    Op(H, 1, 4, 0xa4beea44), Op(H, 4, 11, 0x4bdecfa9), Op(H, 7, 16, 0xf6bb4b60), Op(H, 10, 23, 0xbebfbc70),
    Op(H, 13, 4, 0x289b7ec6), Op(H, 0, 11, 0xeaa127fa), Op(H, 3, 16, 0xd4ef3085), Op(H, 6, 23, 0x04881d05),
    Op(H, 9, 4, 0xd9d4d039), Op(H, 12, 11, 0xe6db99e5), Op(H, 15, 16, 0x1fa27cf8), Op(H, 2, 23, 0xc4ac5665)
  ]

  const FILE_I: seq<Op> := [
    Op(I, 0, 6, 0xf4292244), Op(I, 7, 10, 0x432aff97), Op(I, 14, 15, 0xab9423a7), Op(I, 5, 21, 0xfc93a039),
    Op(I, 12, 6, 0x655b59c3), Op(I, 3, 10, 0x8f0ccc92), Op(I, 10, 15, 0xffeff47d), Op(I, 1, 21, 0x85845dd1),
    Op(I, 8, 6, 0x6fa87e4f), Op(I, 15, 10, 0xfe2ce6e0), Op(I, 6, 15, 0xa3014314), Op(I, 13, 21, 0x4e0811a1),
    Op(I, 4, 6, 0xf7537e82), Op(I, 11, 10, 0xbd3af235), Op(I, 2, 15, 0x2ad7d2bb), Op(I, 9, 21, 0xeb86d391)
  ]

  const FILE_STEPS: seq<Op> := FILE_F + FILE_G + FILE_H + FILE_I

  function Basic(r: Round, x: bv32, y: bv32, z: bv32): bv32
  {
    match r
    case F => (x & y) | (!x & z)
    case G => (x & z) | (y & !z)
    case H => x ^ y ^ z
    case I => y ^ (x | !z)
  }

  function RotateLeft(x: bv32, n: Amount): bv32
  {
    (x << n) | (x >> (32 - n))
  }

  /** `FF`, `GG`, `HH`, `II`: add into `a`, rotate it, add `b`. */
  function BufferStep(w: Words, op: Op, x: bv32): bv32
  {
    var a := w.a + ((Basic(op.round, w.b, w.c, w.d) + x) + op.ac);
    var a' := RotateLeft(a, op.s);
    a' + w.b
  }

  /** `__FF`, `__GG`, `__HH`, `__II`: one expression. */
  function FileStep(w: Words, op: Op, x: bv32): bv32
  {
    w.b + RotateLeft(((w.a + Basic(op.round, w.b, w.c, w.d)) + x) + op.ac, op.s)
  }

  /** What a step makes of the four words, of which it replaces the first. */
  type Stepper = (Words, Op, bv32) -> bv32

  /** The first `n` steps of a table. */
  function Rounds(step: Stepper, steps: seq<Op>, w: Words, block: Bytes, n: nat): Words
    requires |block| == 64 && n <= |steps|
  {
    if n == 0 then w
    else
      var v := Rounds(step, steps, w, block, n - 1);
      var op := steps[n - 1];
      Words(v.d, step(v, op, DecodeWord(block, 4 * op.k)), v.b, v.c)
  }

  function Plus(v: Words, w: Words): Words { Words(v.a + w.a, v.b + w.b, v.c + w.c, v.d + w.d) }

  /** `MD5Transform` */
  function Transform(w: Words, block: Bytes): Words
  {
    if |block| == 64 then Plus(w, Rounds(BufferStep, BUFFER_STEPS, w, block, |BUFFER_STEPS|)) else w
  }

  /** `md5_calc` */
  function Calc(w: Words, block: Bytes): Words
  {
    if |block| == 64 then Plus(w, Rounds(FileStep, FILE_STEPS, w, block, |FILE_STEPS|)) else w
  }

  lemma AddReorder(a: bv32, f: bv32, x: bv32, k: bv32)
    ensures a + ((f + x) + k) == ((a + f) + x) + k
  {
  }

  lemma AddCommutes(a: bv32, b: bv32)
    ensures a + b == b + a
  {
  }

  lemma StepFormsAgree(w: Words, op: Op, x: bv32)
    ensures BufferStep(w, op, x) == FileStep(w, op, x)
  {
    var f := Basic(op.round, w.b, w.c, w.d);
    AddReorder(w.a, f, x, op.ac);
    AddCommutes(RotateLeft(((w.a + f) + x) + op.ac, op.s), w.b);
  }

  lemma SameTables()
    ensures BUFFER_STEPS == FILE_STEPS
  {
  }

  /** Two forms of the step that agree on every input agree over a whole table. */
  lemma {:induction false} RoundFormsAgree(f: Stepper, g: Stepper, steps: seq<Op>, w: Words, block: Bytes, n: nat)
    requires |block| == 64 && n <= |steps|
    requires forall v, op, x :: f(v, op, x) == g(v, op, x)
    ensures Rounds(f, steps, w, block, n) == Rounds(g, steps, w, block, n)
  {
    if n > 0 { RoundFormsAgree(f, g, steps, w, block, n - 1); }
  }

  /** The two transforms are the same function: same tables, two forms of the step. */
  lemma TransformsAgree(w: Words, block: Bytes)
    ensures Transform(w, block) == Calc(w, block)
  {
    SameTables();
    forall v, op, x ensures BufferStep(v, op, x) == FileStep(v, op, x) { StepFormsAgree(v, op, x); }
    if |block| == 64 { RoundFormsAgree(BufferStep, FileStep, BUFFER_STEPS, w, block, |BUFFER_STEPS|); }
  }
}
