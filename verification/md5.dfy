/** The streaming MD5 of common/qmd5.h, against the digest of RFC 1321: padding as in its sections 3.1 and
    3.2, then the transform folded over the 64-byte blocks.  Nothing here depends on what the transform
    does to a block, so it is a parameter. */
module Md5Streaming {
  import opened Common
  import opened Md5Words

  // ---------------------------------------------------------------- the digest of RFC 1321

  const START := Words(0x67452301, 0xefcdab89, 0x98badcfe, 0x10325476)

  /** A transform of the state by one block. */
  type Transformer = (Words, Bytes) -> Words

  /** The transform folded over the first `n` blocks. */
  function Fold(t: Transformer, m: Bytes, n: nat): Words
    requires 64 * n <= |m|
  {
    if n == 0 then START else t(Fold(t, m, n - 1), m[64 * (n - 1)..64 * n])
  }

  /** Later bytes do not matter. */
  lemma {:induction false} FoldPrefix(t: Transformer, m: Bytes, m': Bytes, n: nat)
    requires 64 * n <= |m| && m <= m'
    ensures Fold(t, m, n) == Fold(t, m', n)
  {
    if n > 0 {
      FoldPrefix(t, m, m', n - 1);
      SliceOfPrefix(m, m', 64 * (n - 1), 64 * n);
    }
  }

  lemma SliceOfPrefix(m: Bytes, m': Bytes, a: nat, b: nat)
    requires a <= b <= |m| && m <= m'
    ensures m[a..b] == m'[a..b]
  {
  }

  lemma SliceOfTail(whole: Bytes, input: Bytes, i: nat, j: nat)
    requires i <= j <= |input| <= |whole| && whole[|whole| - |input|..] == input
    ensures var d := |whole| - |input|; input[i..j] == whole[d + i..d + j] && input[i..] == whole[d + i..]
  {
  }

  function Zeros(n: nat): (z: Bytes)
    ensures |z| == n && forall i :: 0 <= i < n ==> z[i] == 0
  {
    seq(n, i => 0)
  }

  /** A one bit, then zeros up to 56 modulo 64. */
  function Padding(length: nat): (p: Bytes)
    ensures 1 <= |p| <= 64 && (length + |p|) % 64 == 56
  {
    [0x80] + Zeros((55 - length) % 64)
  }

  /** The message with its padding and its length in bits, modulo 2^64. */
  function Padded(m: Bytes): (p: Bytes)
    ensures |p| % 64 == 0
  {
    var padded := m + Padding(|m|);
    EightMore(|padded|);
    padded + EncodeLength((8 * |m|) % TWO_64)
  }

  lemma EightMore(n: nat)
    requires n % 64 == 56
    ensures (n + 8) % 64 == 0
  {
  }

  /** `PADDING` */
  const PADDING: Bytes := [0x80] + Zeros(63)

  lemma PadLength(n: nat, padLen: nat)
    requires padLen == if n % 64 < 56 then 56 - n % 64 else 120 - n % 64
    ensures 1 <= padLen <= 64 && PADDING[..padLen] == Padding(n)
  {
    assert (55 - n) % 64 == padLen - 1;
  }

  lemma CountIsLength(c0: int, c1: int, n: int)
    requires 0 <= c0 < TWO_32 && 0 <= c1 < TWO_32 && c0 + TWO_32 * c1 == n
    ensures c0 == n % TWO_32 && c1 == n / TWO_32
  {
  }

  function Digest(t: Transformer, m: Bytes): Bytes
  {
    EncodeWords(Fold(t, Padded(m), |Padded(m)| / 64))
  }

  // ---------------------------------------------------------------- the streaming context

  /** The state after the complete blocks of a message, and the bytes that are left. */
  function Folded(t: Transformer, m: Bytes): Words
  {
    Fold(t, m, |m| / 64)
  }

  function Rest(m: Bytes): (r: Bytes)
    ensures |r| == |m| % 64
  {
    m[64 * (|m| / 64)..]
  }

  /** The low word of the sum and its carry, as the code detects it. */
  lemma LowWord(c0: int, low: int)
    requires 0 <= c0 < TWO_32 && 0 <= low < TWO_32
    ensures var c := (c0 + low) % TWO_32; c0 + low == c + TWO_32 * (if c < low then 1 else 0)
  {
  }

  lemma HighWord(h: int, c: int)
    requires 0 <= c < TWO_32 && 0 <= h
    ensures (c + TWO_32 * h) % TWO_64 == c + TWO_32 * (h % TWO_32)
  {
    var q, r := h / TWO_32, h % TWO_32;
    assert c + TWO_32 * h == TWO_64 * q + (c + TWO_32 * r);
  }

  lemma ModAdd(x: int, y: int)
    ensures (x % TWO_64 + y) % TWO_64 == (x + y) % TWO_64
  {
  }

  lemma ModTwice(x: int, y: int)
    ensures (x % TWO_32 + y) % TWO_32 == (x + y) % TWO_32
  {
  }

  lemma SplitBits(n: int)
    requires 0 <= n < TWO_32
    ensures 8 * n == (8 * n) % TWO_32 + TWO_32 * (n / TWO_29)
  {
  }

  /** The bits of the input are added to the low word, with its carry and the rest to the high word, in 32 bits each. */
  lemma CountAdds(c0: int, c1: int, bits: int, n: int, low: int, c0': int, c1': int)
    requires 0 <= c0 < TWO_32 && 0 <= c1 < TWO_32 && 0 <= n < TWO_32
    requires c0 + TWO_32 * c1 == bits % TWO_64
    requires low == (8 * n) % TWO_32 && c0' == (c0 + low) % TWO_32
    requires c1' == ((if c0' < low then (c1 + 1) % TWO_32 else c1) + n / TWO_29) % TWO_32
    ensures c0' + TWO_32 * c1' == (bits + 8 * n) % TWO_64
  {
    var k := if c0' < low then 1 else 0;
    var h := c1 + k + n / TWO_29;
    LowWord(c0, low);
    SplitBits(n);
    HighWord(h, c0');
    ModAdd(bits, 8 * n);
    ModTwice(c1 + k, n / TWO_29);
  }

  class Context {
    var state: Words
    var count0: int
    var count1: int
    const buffer: array<bv8>
    const t: Transformer        // MD5Transform
    ghost var message: Bytes    // all bytes given to Update so far

    ghost predicate Valid()
      reads this, buffer
    {
      && buffer.Length == 64
      && 0 <= count0 < TWO_32 && 0 <= count1 < TWO_32
      && count0 + TWO_32 * count1 == (8 * |message|) % TWO_64
      && state == Folded(t, message)
      && buffer[..|message| % 64] == Rest(message)
    }

    /** `MD5Init` */
    constructor (transform: Transformer)
      ensures Valid() && message == [] && fresh(buffer) && t == transform
    {
      t := transform;
      count0, count1 := 0, 0;
      state := START;
      buffer := new bv8[64];
      message := [];
    }

    /** `MD5_memcpy` into the buffer. */
    method Copy(at: nat, input: Bytes, from: nat, n: nat)
      requires at + n <= buffer.Length && from + n <= |input|
      modifies buffer
      ensures buffer[..] == old(buffer[..at]) + input[from..from + n] + old(buffer[at + n..])
    {
      var i := 0;
      while i < n
        invariant 0 <= i <= n
        invariant forall k :: at <= k < at + i ==> buffer[k] == input[from + (k - at)]
        invariant forall k :: 0 <= k < at || at + i <= k < buffer.Length ==> buffer[k] == old(buffer[k])
      {
        buffer[at + i] := input[from + i];
        i := i + 1;
      }
      Copied(old(buffer[..]), buffer[..], at, input[from..from + n]);
      assert old(buffer[..])[..at] == old(buffer[..at]) && old(buffer[..])[at + n..] == old(buffer[at + n..]);
    }

    /** The loop of `MD5Update` over complete blocks of the input, the last bytes of `whole`. */
    method Absorb(input: Bytes, from: nat, ghost whole: Bytes, ghost n: nat) returns (i: nat)
      requires from <= |input| < TWO_32 - 63 && |input| <= |whole| && whole[|whole| - |input|..] == input
      requires 64 * n == |whole| - |input| + from && state == Fold(t, whole, n)
      modifies this`state
      ensures from <= i <= |input| && state == Folded(t, whole) && input[i..] == Rest(whole)
    {
      i := from;
      ghost var k := n;
      while Wrap32(i + 63) < |input|
        invariant from <= i <= |input| && 64 * k == |whole| - |input| + i && state == Fold(t, whole, k)
        decreases |input| - i
      {
        SliceOfTail(whole, input, i, i + 64);
        state := t(state, input[i..i + 64]);
        i, k := i + 64, k + 1;
      }
      SliceOfTail(whole, input, i, i);
      assert k == |whole| / 64;
    }

    /** The bit count of `MD5Update`. */
    method AddCount(n: nat, ghost bits: nat)
      requires n < TWO_32 && 0 <= count0 < TWO_32 && 0 <= count1 < TWO_32
      requires count0 + TWO_32 * count1 == bits % TWO_64
      modifies this`count0, this`count1
      ensures 0 <= count0 < TWO_32 && 0 <= count1 < TWO_32
      ensures count0 + TWO_32 * count1 == (bits + 8 * n) % TWO_64
    {
      var low := Wrap32(8 * n);
      ghost var c0, c1 := count0, count1;
      count0 := Wrap32(count0 + low);
      if count0 < low { count1 := Wrap32(count1 + 1); }
      count1 := Wrap32(count1 + n / TWO_29);
      CountAdds(c0, c1, bits, n, low, count0, count1);
    }

    /** `MD5Update` when the input completes the buffer: transform it and all further blocks, keep what is left. */
    method AbsorbBlocks(input: Bytes, index: nat)
      requires |input| < TWO_32 - 63 && buffer.Length == 64 && index == |message| % 64 && |input| >= 64 - index
      requires state == Folded(t, message) && buffer[..index] == Rest(message)
      modifies this`state, buffer
      ensures state == Folded(t, message + input)
      ensures var rest := Rest(message + input); buffer[..|rest|] == rest
    {
      var partLen := 64 - index;
      Copy(index, input, 0, partLen);
      FirstBlock(t, message, input, buffer[..]);
      state := t(state, buffer[..]);
      var i := Absorb(input, partLen, message + input, |message| / 64 + 1);
      Copy(0, input, i, |input| - i);
    }

    /** The rest of `MD5Update`. */
    method Absorbing(input: Bytes, index: nat)
      requires |input| < TWO_32 - 63 && buffer.Length == 64 && index == |message| % 64
      requires state == Folded(t, message) && buffer[..index] == Rest(message)
      modifies this`state, buffer
      ensures state == Folded(t, message + input)
      ensures var rest := Rest(message + input); buffer[..|rest|] == rest
    {
      var partLen := 64 - index;
      if |input| >= partLen {
        AbsorbBlocks(input, index);
      } else {
        NoBlock(t, message, input);
        Copy(index, input, 0, |input|);
      }
    }

    /** `MD5Update`: for any split of a message into updates, each shorter than 2^32-63 bytes, the state is
        the fold over the complete blocks, the buffer holds the rest, and the count is the number of bits
        modulo 2^64. */
    method Update(input: Bytes)
      requires Valid() && |input| < TWO_32 - 63
      modifies this, buffer
      ensures Valid() && message == old(message) + input
    {
      IndexIsLength(count0, count1, |message|);
      var index := (count0 / 8) % 64;
      AddCount(|input|, 8 * |message|);
      Absorbing(input, index);
      message := message + input;
    }

    /** The padding and the length, as `MD5Final` appends them. */
    method Pad()
      requires Valid()
      modifies this, buffer
      ensures Valid() && message == Padded(old(message))
    {
      PaddingAndLength(count0, count1, message);
      var bits := SavedBits(count0, count1);
      Update(PadBytes(count0));
      Update(bits);
    }

    method Wipe()
      requires buffer.Length == 64
      modifies this`state, this`count0, this`count1, buffer
      ensures state == Words(0, 0, 0, 0) && count0 == count1 == 0 && buffer[..] == Zeros(64)
    {
      state, count0, count1 := Words(0, 0, 0, 0), 0, 0;
      forall i | 0 <= i < buffer.Length { buffer[i] := 0; }
    }

    /** `MD5Final`: the digest of everything given to `Update`, and a wiped context. */
    method Final() returns (digest: Bytes)
      requires Valid()
      modifies this, buffer
      ensures digest == Digest(t, old(message))
      ensures state == Words(0, 0, 0, 0) && count0 == count1 == 0 && buffer[..] == Zeros(64)
    {
      Pad();
      digest := EncodeWords(state);
      Wipe();
    }
  }

  /** The length in bits as `MD5Final` saves it. */
  function SavedBits(c0: int, c1: int): (bits: Bytes)
    requires 0 <= c0 < TWO_32 && 0 <= c1 < TWO_32
    ensures |bits| == 8
  {
    EncodeWord(c0 as bv32) + EncodeWord(c1 as bv32)
  }

  /** The bytes of `PADDING` that `MD5Final` uses. */
  function PadBytes(c0: int): (pad: Bytes)
    ensures |pad| <= 64
  {
    var index := (c0 / 8) % 64;
    var padLen := if index < 56 then 56 - index else 120 - index;
    PADDING[..padLen]
  }

  lemma SavedLength(c0: int, c1: int, n: int)
    requires 0 <= c0 < TWO_32 && 0 <= c1 < TWO_32 && c0 + TWO_32 * c1 == n
    ensures 0 <= n < TWO_64 && SavedBits(c0, c1) == EncodeLength(n)
  {
    CountIsLength(c0, c1, n);
  }

  lemma PadOfCount(c0: int, c1: int, m: Bytes)
    requires 0 <= c0 < TWO_32 && 0 <= c1 < TWO_32 && c0 + TWO_32 * c1 == (8 * |m|) % TWO_64
    ensures PadBytes(c0) == Padding(|m|)
  {
    IndexIsLength(c0, c1, |m|);
    var index := (c0 / 8) % 64;
    PadLength(|m|, if index < 56 then 56 - index else 120 - index);
  }

  /** What `MD5Final` computes from the count is the padding and the length of the message. */
  lemma PaddingAndLength(c0: int, c1: int, m: Bytes)
    requires 0 <= c0 < TWO_32 && 0 <= c1 < TWO_32 && c0 + TWO_32 * c1 == (8 * |m|) % TWO_64
    ensures m + PadBytes(c0) + SavedBits(c0, c1) == Padded(m)
  {
    PadOfCount(c0, c1, m);
    SavedLength(c0, c1, (8 * |m|) % TWO_64);
  }

  lemma Copied(before: Bytes, after: Bytes, at: nat, copy: Bytes)
    requires |after| == |before| && at + |copy| <= |before|
    requires forall k :: at <= k < at + |copy| ==> after[k] == copy[k - at]
    requires forall k :: 0 <= k < at || at + |copy| <= k < |before| ==> after[k] == before[k]
    ensures after == before[..at] + copy + before[at + |copy|..]
  {
  }

  function Wrap32(x: int): (r: int)
    ensures 0 <= r < TWO_32 && (0 <= x < TWO_32 ==> r == x)
  {
    x % TWO_32
  }

  lemma ByteIndex(c0: nat, n: nat, z: int)
    requires c0 == 8 * (n - 64 * z)
    ensures (c0 / 8) % 64 == n % 64
  {
    var k := n - 64 * z;
    assert (8 * k) / 8 == k;
    assert k % 64 == n % 64;
  }

  lemma IndexIsLength(c0: int, c1: int, n: nat)
    requires 0 <= c0 < TWO_32 && 0 <= c1 < TWO_32 && c0 + TWO_32 * c1 == (8 * n) % TWO_64
    ensures (c0 / 8) % 64 == n % 64
  {
    var bits := 8 * n;
    var q := bits / TWO_64;
    assert bits == c0 + TWO_32 * c1 + TWO_64 * q;
    ByteIndex(c0, n, 0x80_0000 * c1 + 0x80_0000_0000_0000 * q);
  }

  /** The block that fills up the buffer. */
  lemma FirstBlock(t: Transformer, m: Bytes, input: Bytes, block: Bytes)
    requires |m| % 64 + |input| >= 64
    requires block == Rest(m) + input[..64 - |m| % 64]
    ensures 64 * (|m| / 64 + 1) <= |m + input|
    ensures t(Folded(t, m), block) == Fold(t, m + input, |m| / 64 + 1)
  {
    var n := |m| / 64;
    FoldPrefix(t, m, m + input, n);
    BlockAcross(m, input, n);
  }

  lemma BlockAcross(m: Bytes, input: Bytes, n: nat)
    requires n == |m| / 64 && |m| % 64 + |input| >= 64
    ensures 64 * (n + 1) <= |m + input|
    ensures (m + input)[64 * n..64 * (n + 1)] == m[64 * n..] + input[..64 - |m| % 64]
  {
  }

  lemma NoBlock(t: Transformer, m: Bytes, input: Bytes)
    requires |m| % 64 + |input| < 64
    ensures Folded(t, m + input) == Folded(t, m) && Rest(m + input) == Rest(m) + input
  {
    SameBlocks(|m|, |input|);
    FoldPrefix(t, m, m + input, |m| / 64);
    TailAfter(m, input, 64 * (|m| / 64));
  }

  lemma TailAfter(m: Bytes, input: Bytes, a: nat)
    requires a <= |m|
    ensures (m + input)[a..] == m[a..] + input
  {
  }

  lemma SameBlocks(a: nat, b: nat)
    requires a % 64 + b < 64
    ensures (a + b) / 64 == a / 64 && (a + b) % 64 == a % 64 + b
  {
    assert a + b == 64 * (a / 64) + (a % 64 + b);
  }
}
