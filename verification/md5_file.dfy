/** The one-shot digests: `MD5Bits128` of common/qmd5.h and `get_md5_string` of common/qmd5file.h, on a
    little-endian machine. */
module Md5Digests {
  import opened Common
  import opened Md5Words
  import opened Md5Transform
  import opened Md5Streaming

  /** `MD5Bits128`: the digest of the input, except that no input gives sixteen zeros. */
  method Bits128(input: Bytes) returns (output: Bytes)
    requires |input| < TWO_32 - 63
    ensures output == if input == [] then Zeros(16) else Digest(Transform, input)
  {
    if |input| <= 0 { return Zeros(16); }
    var context := new Context(Transform);
    context.Update(input);
    assert [] + input == input;
    output := context.Final();
  }

  /** Two transforms that agree fold alike. */
  lemma {:induction false} FoldAgrees(t: Transformer, t': Transformer, m: Bytes, n: nat)
    requires 64 * n <= |m|
    requires forall w, b :: t(w, b) == t'(w, b)
    ensures Fold(t, m, n) == Fold(t', m, n)
  {
    if n > 0 { FoldAgrees(t, t', m, n - 1); }
  }

  lemma FoldsGiveDigests(t: Transformer, t': Transformer, m: Bytes)
    requires forall w, b :: t(w, b) == t'(w, b)
    ensures Digest(t, m) == Digest(t', m)
  {
    FoldAgrees(t, t', Padded(m), |Padded(m)| / 64);
  }

  /** The two forms of the round step give the same digest of every message. */
  lemma DigestsAgree(m: Bytes)
    ensures Digest(Transform, m) == Digest(Calc, m)
  {
    forall w, b ensures Transform(w, b) == Calc(w, b) { TransformsAgree(w, b); }
    FoldsGiveDigests(Transform, Calc, m);
  }

  // ---------------------------------------------------------------- the padded blocks of a file

  /** The last block of a content that leaves room for the length. */
  lemma OneLastBlock(m: Bytes)
    requires |m| % 64 <= 55
    ensures var n, r := |m| / 64, |m| % 64;
            && |Padded(m)| / 64 == n + 1
            && Padded(m)[64 * n..64 * (n + 1)] ==
                m[64 * n..] + [0x80] + Zeros(55 - r) + EncodeLength((8 * |m|) % TWO_64)
  {
    var n, r := |m| / 64, |m| % 64;
    assert (55 - |m|) % 64 == 55 - r;
    assert |Padded(m)| == 64 * (n + 1);
  }

  /** The last two blocks of a content that does not. */
  lemma TwoLastBlocks(m: Bytes)
    requires |m| % 64 > 55
    ensures var n, r := |m| / 64, |m| % 64;
            && |Padded(m)| / 64 == n + 2
            && Padded(m)[64 * n..64 * (n + 1)] == m[64 * n..] + [0x80] + Zeros(63 - r)
            && Padded(m)[64 * (n + 1)..64 * (n + 2)] == Zeros(56) + EncodeLength((8 * |m|) % TWO_64)
  {
    var n, r := |m| / 64, |m| % 64;
    assert (55 - |m|) % 64 == 119 - r;
    assert |Padded(m)| == 64 * (n + 2);
  }

  // ---------------------------------------------------------------- hexadecimal

  function HexDigit(n: bv8): char
  {
    if n == 0 then '0' else if n == 1 then '1' else if n == 2 then '2' else if n == 3 then '3' else if n == 4 then '4'
    else if n == 5 then '5' else if n == 6 then '6' else if n == 7 then '7' else if n == 8 then '8'
    else if n == 9 then '9' else if n == 10 then 'a' else if n == 11 then 'b' else if n == 12 then 'c'
    else if n == 13 then 'd' else if n == 14 then 'e' else if n == 15 then 'f' else '?'
  }

  function HexByte(b: bv8): string { [HexDigit(b >> 4), HexDigit(b & 0xf)] }

  function HexBytes(b: Bytes): string
  {
    if b == [] then "" else HexByte(b[0]) + HexBytes(b[1..])
  }

  /** `%08x` */
  function Hex8(w: bv32): string
  {
    HexByte((w >> 24) as bv8) + HexByte(((w >> 16) & 0xff) as bv8) + HexByte(((w >> 8) & 0xff) as bv8)
        + HexByte((w & 0xff) as bv8)
  }

  /** `__PP`: the bytes in reverse. */
  function Reversed(w: bv32): bv32
  {
    (w << 24) | ((w << 8) & 0xff0000) | ((w >> 8) & 0xff00) | (w >> 24)
  }

  lemma ReversedBytes(w: bv32)
    ensures var v := Reversed(w);
            && (v >> 24) as bv8 == (w & 0xff) as bv8 && ((v >> 16) & 0xff) as bv8 == ((w >> 8) & 0xff) as bv8
            && ((v >> 8) & 0xff) as bv8 == ((w >> 16) & 0xff) as bv8 && (v & 0xff) as bv8 == ((w >> 24) & 0xff) as bv8
  {
  }

  lemma HexOfTwo(a: bv8, b: bv8)
    ensures HexBytes([a, b]) == HexByte(a) + HexByte(b)
  {
    assert [a, b][1..] == [b];
    assert HexBytes([b]) == HexByte(b);
  }

  lemma HexOfFour(a: bv8, b: bv8, c: bv8, d: bv8)
    ensures HexBytes([a, b, c, d]) == HexByte(a) + HexByte(b) + HexByte(c) + HexByte(d)
  {
    HexOfTwo(a, b);
    HexOfTwo(c, d);
    assert [a, b, c, d] == [a, b] + [c, d];
    HexConcat([a, b], [c, d]);
  }

  lemma HexOfWord(w: bv32)
    ensures Hex8(Reversed(w)) == HexBytes(EncodeWord(w))
  {
    ReversedBytes(w);
    HexOfFour((w & 0xff) as bv8, ((w >> 8) & 0xff) as bv8, ((w >> 16) & 0xff) as bv8, ((w >> 24) & 0xff) as bv8);
  }

  lemma {:induction false} HexConcat(a: Bytes, b: Bytes)
    ensures HexBytes(a + b) == HexBytes(a) + HexBytes(b)
  {
    if a == [] {
      assert a + b == b;
    } else {
      assert (a + b)[1..] == a[1..] + b;
      HexConcat(a[1..], b);
    }
  }

  /** `"%08x%08x%08x%08x"` of the reversed words prints the digest bytes in order. */
  function Hex32(w: Words): string
  {
    Hex8(Reversed(w.a)) + Hex8(Reversed(w.b)) + Hex8(Reversed(w.c)) + Hex8(Reversed(w.d))
  }

  lemma HexOfWords(w: Words)
    ensures Hex32(w) == HexBytes(EncodeWords(w))
  {
    HexOfWord(w.a); HexOfWord(w.b); HexOfWord(w.c); HexOfWord(w.d);
    HexConcat(EncodeWord(w.a), EncodeWord(w.b));
    HexConcat(EncodeWord(w.a) + EncodeWord(w.b), EncodeWord(w.c));
    HexConcat(EncodeWord(w.a) + EncodeWord(w.b) + EncodeWord(w.c), EncodeWord(w.d));
  }

  // ---------------------------------------------------------------- reading it back

  predicate IsHexText(text: string)
  {
    forall i :: 0 <= i < |text| ==> text[i] in "0123456789abcdef"
  }

  /** The value of a hexadecimal digit, by itself. */
  function ValueOf(c: char): bv8
  {
    match c
    case '0' => 0 case '1' => 1 case '2' => 2 case '3' => 3 case '4' => 4 case '5' => 5 case '6' => 6 case '7' => 7
    case '8' => 8 case '9' => 9 case 'a' => 10 case 'b' => 11 case 'c' => 12 case 'd' => 13 case 'e' => 14
    case 'f' => 15
    case _ => 0xff
  }

  /** Two digits a byte, the high one first. */
  function FromHex(text: string): Bytes
  {
    if |text| < 2 then [] else [16 * ValueOf(text[0]) + ValueOf(text[1])] + FromHex(text[2..])
  }

  lemma DigitIsRead(n: bv8)
    requires n < 16
    ensures ValueOf(HexDigit(n)) == n && HexDigit(n) in "0123456789abcdef"
  {
    var hex := "0123456789abcdef";
    assert hex[0] == '0' && hex[1] == '1' && hex[2] == '2' && hex[3] == '3' && hex[4] == '4' && hex[5] == '5';
    assert hex[6] == '6' && hex[7] == '7' && hex[8] == '8' && hex[9] == '9' && hex[10] == 'a' && hex[11] == 'b';
    assert hex[12] == 'c' && hex[13] == 'd' && hex[14] == 'e' && hex[15] == 'f';
  }

  lemma Nibbles(b: bv8)
    ensures b >> 4 < 16 && b & 0xf < 16 && 16 * (b >> 4) + (b & 0xf) == b
  {
  }

  /** Whatever is printed reads back as the same bytes, in the same order. */
  lemma {:induction false} HexIsRead(b: Bytes)
    ensures |HexBytes(b)| == 2 * |b| && IsHexText(HexBytes(b)) && FromHex(HexBytes(b)) == b
  {
    if b != [] {
      HexIsRead(b[1..]);
      Nibbles(b[0]);
      DigitIsRead(b[0] >> 4);
      DigitIsRead(b[0] & 0xf);
      assert HexBytes(b)[2..] == HexBytes(b[1..]);
    }
  }

  /** The printed words read back as the sixteen bytes of a digest. */
  lemma WordsAreRead(w: Words)
    ensures |Hex32(w)| == 32 && IsHexText(Hex32(w)) && FromHex(Hex32(w)) == EncodeWords(w)
  {
    HexOfWords(w);
    HexIsRead(EncodeWords(w));
  }

  // ---------------------------------------------------------------- the file digest

  datatype File = Missing | Present(content: Bytes)

  const BLOCKS_MAX := 0x40_0000_0000   // bytes whose blocks a 32-bit counter can count

  /** `md5_calc` on each complete block; the block counter has 32 bits. */
  method FileBlocks(t: Transformer, m: Bytes) returns (w: Words, at: nat)
    ensures at == 64 * Wrap32(|m| / 64) <= 64 * (|m| / 64) && w == Fold(t, m, Wrap32(|m| / 64))
  {
    var num := Wrap32(|m| / 64);
    w, at := START, 0;
    var i := 0;
    while i < num
      invariant 0 <= i <= num && at == 64 * i && w == Fold(t, m, i)
    {
      w := t(w, m[at..at + 64]);
      at, i := at + 64, i + 1;
    }
  }

  /** The block buffer `x` after the last bytes of the file and the one bit, zeros behind. */
  function Marked(rest: Bytes): (x: Bytes)
    requires |rest| < 64
    ensures |x| == 64
  {
    (rest + Zeros(64 - |rest|))[|rest| := 0x80]
  }

  lemma MarkedIsPadding(rest: Bytes)
    requires |rest| < 64
    ensures Marked(rest) == rest + [0x80] + Zeros(63 - |rest|)
    ensures |rest| <= 55 ==> Marked(rest)[..56] == rest + [0x80] + Zeros(55 - |rest|)
  {
  }

  /** The padding of `get_md5_string`, in the block buffer `x`. */
  method FileTail(t: Transformer, m: Bytes, w: Words, at: nat) returns (v: Words)
    requires at + |m| % 64 <= |m|
    ensures v == Tail(t, w, m[at..at + |m| % 64], EncodeLength((8 * |m|) % TWO_64))
  {
    var mod := |m| % 64;
    var x := Marked(m[at..at + mod]);
    v := w;
    if mod > 55 {
      v := t(v, x);
      x := Zeros(64);
    }
    x := x[..56] + EncodeLength((8 * |m|) % TWO_64);
    v := t(v, x);
  }

  /** One or two more blocks, with the length in the last eight bytes. */
  function Tail(t: Transformer, w: Words, rest: Bytes, length: Bytes): Words
    requires |rest| < 64
  {
    if |rest| > 55 then t(t(w, Marked(rest)), Zeros(64)[..56] + length)
    else t(w, Marked(rest)[..56] + length)
  }

  lemma OneMore(t: Transformer, m: Bytes, p: Bytes, n: nat)
    requires 64 * n <= |m| && m <= p && 64 * (n + 1) <= |p|
    ensures Fold(t, p, n + 1) == t(Fold(t, m, n), p[64 * n..64 * (n + 1)])
  {
    FoldPrefix(t, m, p, n);
  }

  /** The fold over the padded message, from the fold over the message. */
  lemma TailIsFold(t: Transformer, m: Bytes)
    ensures Tail(t, Folded(t, m), Rest(m), EncodeLength((8 * |m|) % TWO_64)) == Fold(t, Padded(m), |Padded(m)| / 64)
  {
    var n, r, p := |m| / 64, |m| % 64, Padded(m);
    MarkedIsPadding(Rest(m));
    if r > 55 {
      TwoLastBlocks(m);
      OneMore(t, m, p, n);
      assert Zeros(64)[..56] == Zeros(56);
    } else {
      OneLastBlock(m);
      OneMore(t, m, p, n);
    }
  }

  /** The blocks and the tail of a content whose blocks can be counted. */
  lemma WholeDigest(t: Transformer, m: Bytes, at: nat, v: Words)
    requires at == 64 * (|m| / 64)
    requires v == Tail(t, Fold(t, m, |m| / 64), m[at..at + |m| % 64], EncodeLength((8 * |m|) % TWO_64))
    ensures EncodeWords(v) == Digest(t, m)
  {
    assert m[at..at + |m| % 64] == Rest(m);
    TailIsFold(t, m);
  }

  /** What the loop and the tail make of a content of any length: the number of blocks is taken modulo 2^32. */
  function Wrapped(t: Transformer, m: Bytes): Words
  {
    var n := Wrap32(|m| / 64);
    Tail(t, Fold(t, m, n), m[64 * n..64 * n + |m| % 64], EncodeLength((8 * |m|) % TWO_64))
  }

  /** Up to 2^38 bytes that is the digest. */
  lemma WrappedIsDigest(t: Transformer, m: Bytes)
    requires |m| < BLOCKS_MAX
    ensures EncodeWords(Wrapped(t, m)) == Digest(t, m)
  {
    WholeDigest(t, m, 64 * (|m| / 64), Wrapped(t, m));
  }

  /** All of `get_md5_string` between opening the file and printing. */
  method FileDigest(t: Transformer, m: Bytes) returns (r: int, w: Words)
    ensures r == 0 || r == -1
    ensures r == -1 <==> |m| % 64 == 0
    ensures r == 0 ==> w == Wrapped(t, m)
    ensures r == 0 && |m| < BLOCKS_MAX ==> EncodeWords(w) == Digest(t, m)
  {
    var at;
    w, at := FileBlocks(t, m);
    if |m| % 64 == 0 { return -1, w; }
    w := FileTail(t, m, w, at);
    r := 0;
    if |m| < BLOCKS_MAX { WrappedIsDigest(t, m); }
  }

  /** `get_md5_string`: fails exactly when the file cannot be opened or its length is a multiple of 64 (the
      read of zero bytes does not report one item); otherwise the text is the digest of the content. */
  method GetMd5String(file: File) returns (r: int, text: string)
    ensures r == 0 || r == -1
    ensures r == -1 <==> file.Missing? || |file.content| % 64 == 0
    ensures r == 0 ==> |text| == 32 && IsHexText(text) && FromHex(text) == EncodeWords(Wrapped(Calc, file.content))
    ensures r == 0 && |file.content| < BLOCKS_MAX ==> FromHex(text) == Digest(Transform, file.content)
  {
    text := "";
    if file.Missing? { return -1, text; }
    var w;
    r, w := FileDigest(Calc, file.content);
    if r == 0 {
      text := Hex32(w);
      WordsAreRead(w);
      DigestsAgree(file.content);
    }
  }
}
