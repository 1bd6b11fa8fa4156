/**
  Incremental hashing (Cmd/MD5.c): a context absorbs input piece by piece through a 64-byte buffer.
  Whatever the pieces, the context depends only on their concatenation, and the final value is that
  of the padded message of RFC 1321 sections 3.1 to 3.4, with this repository's step table.
*/
module Md5Digest {
  import opened Basics
  import opened Md5Rounds
  import opened Md5Block

  const IV := Regs(0x6745_2301, 0xefcd_ab89, 0x98ba_dcfe, 0x1032_5476)

  // ---- bytes and words ----

  /** Four bytes shifted to their places. */
  function WordSum(b0: nat, b1: nat, b2: nat, b3: nat): DWORD
    requires b0 < 256 && b1 < 256 && b2 < 256 && b3 < 256
  {
    b0 + 0x100 * b1 + 0x1_0000 * b2 + 0x100_0000 * b3
  }

  function WordOf(b: seq<byte>): DWORD
    requires |b| == 4
  {
    WordSum(b[0], b[1], b[2], b[3])
  }

  /** Decode: sixteen words, least significant byte first. */
  function Decode(block: seq<byte>): (words: seq<DWORD>)
    requires |block| == 64
    ensures |words| == 16
  {
    seq(16, i requires 0 <= i < 16 => WordOf(block[4 * i..4 * i + 4]))
  }

  lemma DecodeAt(block: seq<byte>, i: nat)
    requires |block| == 64 && i < 16
    ensures Decode(block)[i] == WordSum(block[4 * i], block[4 * i + 1], block[4 * i + 2], block[4 * i + 3])
  {
    hide WordSum;
    assert block[4 * i..4 * i + 4] == [block[4 * i], block[4 * i + 1], block[4 * i + 2], block[4 * i + 3]];
  }

  /** The loop of Decode. */
  method DecodeBlock(input: seq<byte>) returns (output: seq<DWORD>)
    requires |input| == 64
    ensures output == Decode(input)
  {
    hide Decode, WordSum;
    output := [];
    var i, j := 0, 0;
    while j < 64
      invariant 0 <= i <= 16 && j == 4 * i
      invariant |output| == i && forall k :: 0 <= k < i ==> output[k] == Decode(input)[k]
    {
      DecodeAt(input, i);
      output := output + [WordSum(input[j], input[j + 1], input[j + 2], input[j + 3])];
      i, j := i + 1, j + 4;
    }
  }

  /** Encode: the bytes of one word, least significant first. */
  function EncodeWord(w: DWORD): (bytes: seq<byte>)
    ensures |bytes| == 4
  {
    [w % 0x100, w / 0x100 % 0x100, w / 0x1_0000 % 0x100, w / 0x100_0000 % 0x100]
  }

  lemma EncodeDecode(w: DWORD)
    ensures WordOf(EncodeWord(w)) == w
  {
    var q1, q2, q3 := w / 0x100, w / 0x1_0000, w / 0x100_0000;
    assert q2 == q1 / 0x100 && q3 == q2 / 0x100 && q3 < 0x100;
    assert w == 0x100 * q1 + w % 0x100;
    assert q1 == 0x100 * q2 + q1 % 0x100;
    assert q2 == 0x100 * q3 + q2 % 0x100;
  }

  function EncodeRegs(r: Regs): (bytes: seq<byte>)
    ensures |bytes| == 16
  {
    EncodeWord(r.a) + EncodeWord(r.b) + EncodeWord(r.c) + EncodeWord(r.d)
  }

  lemma TwoWords(bytes: seq<byte>, a: DWORD, b: DWORD)
    requires |bytes| == 8
    requires var ws := [a, b]; forall k :: 0 <= k < |ws| ==> bytes[4 * k..4 * k + 4] == EncodeWord(ws[k])
    ensures bytes == EncodeWord(a) + EncodeWord(b)
  {
    hide EncodeWord;
    var ws := [a, b];
    assert bytes[4 * 0..4 * 0 + 4] == EncodeWord(ws[0]) && bytes[4 * 1..4 * 1 + 4] == EncodeWord(ws[1]);
    assert bytes == bytes[0..4] + bytes[4..8];
  }

  lemma FourWords(bytes: seq<byte>, r: Regs)
    requires |bytes| == 16
    requires var ws := [r.a, r.b, r.c, r.d]; forall k :: 0 <= k < |ws| ==> bytes[4 * k..4 * k + 4] == EncodeWord(ws[k])
    ensures bytes == EncodeRegs(r)
  {
    hide EncodeWord;
    var ws := [r.a, r.b, r.c, r.d];
    assert bytes[4 * 0..4 * 0 + 4] == EncodeWord(ws[0]) && bytes[4 * 1..4 * 1 + 4] == EncodeWord(ws[1]);
    assert bytes[4 * 2..4 * 2 + 4] == EncodeWord(ws[2]) && bytes[4 * 3..4 * 3 + 4] == EncodeWord(ws[3]);
    assert bytes == bytes[0..4] + bytes[4..8] + bytes[8..12] + bytes[12..16];
  }

  /** The loop of Encode. */
  method EncodeAll(input: seq<DWORD>) returns (output: seq<byte>)
    ensures |output| == 4 * |input| && forall k :: 0 <= k < |input| ==> output[4 * k..4 * k + 4] == EncodeWord(input[k])
  {
    output := [];
    var i := 0;
    while i < |input|
      invariant 0 <= i <= |input| && |output| == 4 * i
      invariant forall k :: 0 <= k < i ==> output[4 * k..4 * k + 4] == EncodeWord(input[k])
    {
      var w := input[i];
      output := output + [w % 0x100, w / 0x100 % 0x100, w / 0x1_0000 % 0x100, w / 0x100_0000 % 0x100];
      i := i + 1;
    }
  }

  /** The digest loses nothing of the final registers. */
  lemma DigestIsLossless(r: Regs)
    ensures var bytes := EncodeRegs(r);
            r == Regs(WordOf(bytes[0..4]), WordOf(bytes[4..8]), WordOf(bytes[8..12]), WordOf(bytes[12..16]))
  {
    hide WordOf, EncodeWord;
    EncodeDecode(r.a);
    EncodeDecode(r.b);
    EncodeDecode(r.c);
    EncodeDecode(r.d);
    var bytes := EncodeRegs(r);
    assert bytes[0..4] == EncodeWord(r.a) && bytes[4..8] == EncodeWord(r.b);
    assert bytes[8..12] == EncodeWord(r.c) && bytes[12..16] == EncodeWord(r.d);
  }

  // ---- the hash of a message, all at once ----

  function Compress(state: Regs, block: seq<byte>): Regs
    requires |block| == 64
  {
    Transform(state, Decode(block))
  }

  /** MD5Transform */
  method TransformBlock(state: Regs, block: seq<byte>) returns (after: Regs)
    requires |block| == 64
    ensures after == Compress(state, block)
  {
    var x := DecodeBlock(block);
    after := TransformWords(state, x);
  }

  /** The registers start as the bytes 0 to f, up and down. */
  lemma InitialBytes()
    ensures EncodeRegs(IV) == [0x01, 0x23, 0x45, 0x67, 0x89, 0xab, 0xcd, 0xef, 0xfe, 0xdc, 0xba, 0x98, 0x76, 0x54, 0x32, 0x10]
  {
    assert EncodeWord(0x6745_2301) == [0x01, 0x23, 0x45, 0x67] && EncodeWord(0xefcd_ab89) == [0x89, 0xab, 0xcd, 0xef];
    assert EncodeWord(0x98ba_dcfe) == [0xfe, 0xdc, 0xba, 0x98] && EncodeWord(0x1032_5476) == [0x76, 0x54, 0x32, 0x10];
  }

  /** The chaining state after the first q blocks of a message. */
  function Fold(msg: seq<byte>, q: nat): Regs
    requires 64 * q <= |msg|
    decreases q
  {
    if q == 0 then IV else Compress(Fold(msg, q - 1), msg[64 * (q - 1)..64 * q])
  }

  /** The least number of zero bytes that, after the bit 1, bring the length to 56 modulo 64. */
  function PadZeros(n: nat): (k: nat)
    ensures (n + 1 + k) % 64 == 56 && k < 64
  {
    (55 - n) % 64
  }

  /** The message length in bits, modulo 2^64. */
  function BitCount(n: nat): nat {
    8 * n % (WORDS * WORDS)
  }

  /** The length as eight bytes, low word first. */
  function LengthBytes(n: nat): (bytes: seq<byte>)
    ensures |bytes| == 8
  {
    EncodeWord(BitCount(n) % WORDS) + EncodeWord(BitCount(n) / WORDS)
  }

  function Padding(n: nat): seq<byte> {
    [0x80] + Zeros(PadZeros(n))
  }

  function Padded(msg: seq<byte>): (p: seq<byte>)
    ensures |p| % 64 == 0
  {
    PaddedLength(|msg|);
    msg + Padding(|msg|) + LengthBytes(|msg|)
  }

  lemma PaddedLength(n: nat)
    ensures (n + |Padding(n)| + 8) % 64 == 0
  {
    var t := n + 1 + PadZeros(n);
    assert t % 64 == 56;
  }

  /**
    The padded message: the message, the byte 0x80, zeros, and the number of bits as eight bytes, least significant
    first; in blocks of 64 bytes, as few as possible.
  */
  lemma PaddedLayout(msg: seq<byte>)
    requires 8 * |msg| < WORDS * WORDS
    ensures var p, n := Padded(msg), |msg|;
            && |p| % 64 == 0 && n + 9 <= |p| < n + 9 + 64
            && p[..n] == msg && p[n] == 0x80
            && (forall i :: n < i < |p| - 8 ==> p[i] == 0)
            && 8 * n == WordOf(p[|p| - 8..|p| - 4]) + WORDS * WordOf(p[|p| - 4..])
  {
    hide WordOf, EncodeWord;
    var p, n := Padded(msg), |msg|;
    assert p == msg + ([0x80] + Zeros(PadZeros(n))) + LengthBytes(n);
    var c := BitCount(n);
    assert c == 8 * n;
    EncodeDecode(c % WORDS);
    EncodeDecode(c / WORDS);
    assert p[|p| - 8..|p| - 4] == EncodeWord(c % WORDS) && p[|p| - 4..] == EncodeWord(c / WORDS);
  }

  function Hash(msg: seq<byte>): seq<byte> {
    EncodeRegs(Fold(Padded(msg), |Padded(msg)| / 64))
  }

  // ---- folding ----

  /** Later bytes do not affect earlier blocks. */
  lemma {:induction false} FoldPrefix(msg: seq<byte>, more: seq<byte>, q: nat)
    requires 64 * q <= |msg|
    ensures Fold(msg + more, q) == Fold(msg, q)
    decreases q
  {
    hide Compress;
    if q > 0 {
      FoldPrefix(msg, more, q - 1);
      assert (msg + more)[64 * (q - 1)..64 * q] == msg[64 * (q - 1)..64 * q];
    }
  }

  // ---- the 64-bit length counter ----

  /** The part of 8 * len that goes to the low word, and the part that goes to the high word. */
  lemma BitsSplit(len: nat)
    requires len < WORDS
    ensures 8 * len == len * 8 % WORDS + WORDS * (len / 0x2000_0000)
  {
    var over := len / 0x2000_0000;
    assert 8 * len == 8 * (len % 0x2000_0000) + WORDS * over;
  }

  /** The carry out of the low word is recognized by comparing the sum with a summand. */
  lemma CarryOut(lo: DWORD, bits: DWORD)
    ensures var lo' := (lo + bits) % WORDS;
            lo + bits == lo' + WORDS * if lo' < bits then 1 else 0
  {
  }

  /** Adding to the high word in two steps, each of which may wrap, is adding once. */
  lemma HighWord(hi: DWORD, carry: nat, over: nat)
    requires carry <= 1 && over < 8
    ensures ((hi + carry) % WORDS + over) % WORDS == (hi + carry + over) % WORDS
  {
  }

  /** The counter update of MD5Update, with its carry, adds 8 * len modulo 2^64. */
  lemma CountAdvances(lo: DWORD, hi: DWORD, n: nat, len: nat)
    requires lo + WORDS * hi == BitCount(n) && len < WORDS
    ensures var bits := len * 8 % WORDS;
            var lo' := (lo + bits) % WORDS;
            var carry := if lo' < bits then 1 else 0;
            lo' + WORDS * (((hi + carry) % WORDS + len / 0x2000_0000) % WORDS) == BitCount(n + len)
  {
    BitsSplit(len);
    var bits: DWORD, over: nat := len * 8 % WORDS, len / 0x2000_0000;
    CarryOut(lo, bits);
    var lo': nat := (lo + bits) % WORDS;
    var carry: nat := if lo' < bits then 1 else 0;
    HighWord(hi, carry, over);
    Counted(lo, hi, bits, over, lo', carry, n, len);
  }

  lemma Counted(lo: DWORD, hi: DWORD, bits: nat, over: nat, lo': nat, carry: nat, n: nat, len: nat)
    requires lo + WORDS * hi == BitCount(n) && 8 * len == bits + WORDS * over
    requires lo + bits == lo' + WORDS * carry && lo' < WORDS
    ensures lo' + WORDS * ((hi + carry + over) % WORDS) == BitCount(n + len)
  {
    var top := hi + carry + over;
    var hi', wraps := top % WORDS, top / WORDS;
    assert top == hi' + WORDS * wraps;
    WrapsAway(8 * n, 8 * len, lo + WORDS * hi, lo' + WORDS * hi', wraps);
  }

  lemma WrapsAway(a: nat, b: nat, c: nat, d: nat, wraps: nat)
    requires c == a % (WORDS * WORDS) && d < WORDS * WORDS
    requires c + b == d + WORDS * WORDS * wraps
    ensures d == (a + b) % (WORDS * WORDS)
  {
    var m := WORDS * WORDS;
    var t := a / m;
    assert a + b == (t + wraps) * m + d;
    ModOf(t + wraps, m, d);
  }

  /** The buffer index is read off the low counter word. */
  lemma IndexFromCount(lo: DWORD, hi: DWORD, n: nat)
    requires lo + WORDS * hi == BitCount(n)
    ensures lo / 8 % 64 == n % 64
  {
    var t := 8 * n / (WORDS * WORDS);
    assert 8 * n == lo + WORDS * (hi + WORDS * t);
    var s := hi + WORDS * t;
    assert n == lo / 8 + 0x2000_0000 * s;
    IndexOf64(lo / 8, 0x80_0000 * s, n);
  }

  lemma IndexOf64(a: nat, k: nat, n: nat)
    requires n == a + 64 * k
    ensures a % 64 == n % 64
  {
  }

  // ---- the context ----

  class Md5Ctx {
    var state: Regs
    var count0: DWORD
    var count1: DWORD
    var buffer: array<byte>

    /** The context has taken in exactly msg. */
    ghost predicate Absorbed(msg: seq<byte>)
      reads this, buffer
    {
      && buffer.Length == 64
      && count0 + WORDS * count1 == BitCount(|msg|)
      && state == Fold(msg, |msg| / 64)
      && buffer[..|msg| % 64] == msg[|msg| - |msg| % 64..]
    }

    /** MD5Init */
    constructor ()
      ensures Absorbed([]) && fresh(buffer)
    {
      count0, count1 := 0, 0;
      state := IV;
      buffer := new byte[64];
    }

    /** The copies into the buffer. */
    method Store(at: nat, piece: seq<byte>)
      requires buffer.Length == 64 && at + |piece| <= 64
      modifies buffer
      ensures buffer[..] == old(buffer[..at]) + piece + old(buffer[at + |piece|..])
    {
      forall i | 0 <= i < |piece| {
        buffer[at + i] := piece[i];
      }
    }

    /** The counter part of MD5Update. */
    method AdvanceCount(len: nat, ghost n: nat)
      requires len < WORDS && count0 + WORDS * count1 == BitCount(n)
      modifies this`count0, this`count1
      ensures count0 + WORDS * count1 == BitCount(n + len)
    {
      hide BitCount;
      var bits := len * 8 % WORDS;
      CountAdvances(count0, count1, n, len);
      count0 := (count0 + bits) % WORDS;
      if count0 < bits {
        count1 := (count1 + 1) % WORDS;
      }
      count1 := (count1 + len / 0x2000_0000) % WORDS;
    }

    /**
      MD5Update: absorbing is appending.  (Within 64 bytes of the 32-bit limit the test i + 63 < inputLen
      would wrap.)
    */
    method Update(input: seq<byte>, ghost msg: seq<byte>)
      requires Absorbed(msg) && |input| <= WORDS - 64
      modifies this, buffer
      ensures Absorbed(msg + input) && buffer == old(buffer)
    {
      hide Fold, BitCount;
      var index := count0 / 8 % 64;
      IndexFromCount(count0, count1, |msg|);
      AdvanceCount(|input|, |msg|);
      ghost var q := |msg| / 64;
      ghost var all := msg + input;
      ghost var p := Absorb(input, index, msg, q);
      BlocksAndRest(|all|, p, |all| - 64 * p);
    }

    /** The part of MD5Update that moves bytes; p is the number of whole blocks afterwards. */
    method Absorb(input: seq<byte>, at: nat, ghost msg: seq<byte>, ghost q: nat) returns (ghost p: nat)
      requires buffer.Length == 64 && |msg| == 64 * q + at && at < 64 && |input| <= WORDS - 64
      requires state == Fold(msg, q) && buffer[..at] == msg[64 * q..]
      modifies this`state, buffer
      ensures 64 * p <= |msg + input| < 64 * (p + 1)
      ensures state == Fold(msg + input, p)
      ensures buffer[..|msg + input| - 64 * p] == (msg + input)[64 * p..]
    {
      hide Compress, Fold;
      ghost var all := msg + input;
      var index := at;
      var partLen := 64 - index;
      var i := 0;
      p := q;
      FoldPrefix(msg, input, q);
      if |input| >= partLen {
        FillBlock(msg, input, q, at);
        Store(index, input[..partLen]);
        assert buffer[..] == all[64 * q..64 * q + 64];
        FoldNext(all, p);
        state := TransformBlock(state, buffer[..]);
        p := p + 1;
        i := partLen;
        while i + 63 < |input|
          invariant 0 <= i <= |input| && |msg| + i == 64 * p
          invariant state == Fold(all, p)
        {
          SliceOfInput(msg, input, 64 * p, 64 * p + 64);
          FoldNext(all, p);
          state := TransformBlock(state, input[i..i + 64]);
          p := p + 1;
          i := i + 64;
        }
        index := 0;
        SliceOfInput(msg, input, 64 * p, |all|);
      } else {
        assert all[64 * q..] == msg[64 * q..] + input;
      }
      Store(index, input[i..]);
      assert buffer[..index + |input| - i] == all[64 * p..];
    }

    /** MD5Final: pad, append the length, and read the state out. */
    method Final(ghost msg: seq<byte>) returns (digest: seq<byte>)
      requires Absorbed(msg)
      modifies this, buffer
      ensures digest == Hash(msg)
    {
      hide Fold, BitCount, Padding, LengthBytes, EncodeRegs, EncodeWord;
      var bits := EncodeAll([count0, count1]);
      TwoWords(bits, count0, count1);
      CountBytes(count0, count1, |msg|);
      var index := count0 / 8 % 64;
      IndexFromCount(count0, count1, |msg|);
      var padLen := if index < 56 then 56 - index else 120 - index;
      PadLengthRight(|msg|, index, padLen);
      Update([0x80] + Zeros(padLen - 1), msg);
      Update(bits, msg + Padding(|msg|));
      assert Absorbed(Padded(msg));
      digest := EncodeAll([state.a, state.b, state.c, state.d]);
      FourWords(digest, state);
    }
  }

  /** MD5Digest */
  method Digest(input: seq<byte>) returns (digest: seq<byte>)
    requires |input| <= WORDS - 64
    ensures digest == Hash(input)
  {
    hide Hash, Fold;
    ghost var none: seq<byte> := [];
    ghost var all := none + input;
    assert all == input;
    var context := new Md5Ctx();
    context.Update(input, none);
    digest := context.Final(all);
  }

  lemma BlocksAndRest(n: nat, q: nat, r: nat)
    requires n == 64 * q + r && r < 64
    ensures n / 64 == q && n % 64 == r
  {
  }

  lemma FoldNext(msg: seq<byte>, q: nat)
    requires 64 * q + 64 <= |msg|
    ensures Fold(msg, q + 1) == Compress(Fold(msg, q), msg[64 * q..64 * q + 64])
  {
  }

  lemma FillBlock(msg: seq<byte>, input: seq<byte>, q: nat, at: nat)
    requires |msg| == 64 * q + at && at < 64 && |input| >= 64 - at
    ensures (msg + input)[64 * q..64 * q + 64] == msg[64 * q..] + input[..64 - at]
  {
  }

  lemma SliceOfInput(msg: seq<byte>, input: seq<byte>, a: nat, b: nat)
    requires |msg| <= a <= b <= |msg| + |input|
    ensures (msg + input)[a..b] == input[a - |msg|..b - |msg|]
    ensures b == |msg| + |input| ==> (msg + input)[a..] == input[a - |msg|..]
  {
  }

  lemma CountBytes(lo: DWORD, hi: DWORD, n: nat)
    requires lo + WORDS * hi == BitCount(n)
    ensures EncodeWord(lo) + EncodeWord(hi) == LengthBytes(n)
  {
    hide EncodeWord, BitCount;
    assert BitCount(n) % WORDS == lo && BitCount(n) / WORDS == hi;
  }

  lemma PadLengthRight(n: nat, index: nat, padLen: nat)
    requires index == n % 64
    requires padLen == if index < 56 then 56 - index else 120 - index
    ensures padLen >= 1 && [0x80] + Zeros(padLen - 1) == Padding(n)
  {
    assert PadZeros(n) == padLen - 1;
  }
}
