/**
  The block transform of Cmd/MD5.c: four rounds of sixteen macro calls on the registers a, b, c and d, written
  out as they stand there.  Together they are the 64 steps of Transform.
*/
module Md5Block {
  import opened Basics
  import opened Md5Rounds

  const S11: Shift := 7
  const S12: Shift := 12
  const S13: Shift := 17
  const S14: Shift := 22
  const S21: Shift := 5
  const S22: Shift := 9
  const S23: Shift := 14
  const S24: Shift := 20
  const S31: Shift := 4
  const SS32: Shift := 8
  const S33: Shift := 16
  const S34: Shift := 23
  const S41: Shift := 6
  const S42: Shift := 10
  const S43: Shift := 15
  const S44: Shift := 21

  // ---- the macros ----

  method FF(a0: DWORD, b: DWORD, c: DWORD, d: DWORD, x: DWORD, s: Shift, ac: DWORD) returns (a: DWORD)
    ensures Forward(Regs(a0, b, c, d), Op(RoundF, x, s, ac)) == Regs(d, a, b, c)
  {
    hide F, G, H, I, RotateLeft;
    a := a0;
    a := (a + (F(b, c, d) + x + ac) % WORDS) % WORDS;
    a := RotateLeft(a, s);
    a := (a + b) % WORDS;
  }

  method GG(a0: DWORD, b: DWORD, c: DWORD, d: DWORD, x: DWORD, s: Shift, ac: DWORD) returns (a: DWORD)
    ensures Forward(Regs(a0, b, c, d), Op(RoundG, x, s, ac)) == Regs(d, a, b, c)
  {
    hide F, G, H, I, RotateLeft;
    a := a0;
    a := (a + (G(b, c, d) + x + ac) % WORDS) % WORDS;
    a := RotateLeft(a, s);
    a := (a + b) % WORDS;
  }

  method HH(a0: DWORD, b: DWORD, c: DWORD, d: DWORD, x: DWORD, s: Shift, ac: DWORD) returns (a: DWORD)
    ensures Forward(Regs(a0, b, c, d), Op(RoundH, x, s, ac)) == Regs(d, a, b, c)
  {
    hide F, G, H, I, RotateLeft;
    a := a0;
    a := (a + (H(b, c, d) + x + ac) % WORDS) % WORDS;
    a := RotateLeft(a, s);
    a := (a + b) % WORDS;
  }

  method II(a0: DWORD, b: DWORD, c: DWORD, d: DWORD, x: DWORD, s: Shift, ac: DWORD) returns (a: DWORD)
    ensures Forward(Regs(a0, b, c, d), Op(RoundI, x, s, ac)) == Regs(d, a, b, c)
  {
    hide F, G, H, I, RotateLeft;
    a := a0;
    a := (a + (I(b, c, d) + x + ac) % WORDS) % WORDS;
    a := RotateLeft(a, s);
    a := (a + b) % WORDS;
  }

  // ---- the rounds ----

  /** The sixteen steps of a round. */
  function Row(words: seq<DWORD>, round: nat): (ops: seq<Op>)
    requires |words| == 16 && round < 4
    ensures |ops| == 16 && forall j :: 0 <= j < 16 ==> ops[j] == OpAt(words, 16 * round + j)
  {
    seq(16, j requires 0 <= j < 16 => OpAt(words, 16 * round + j))
  }

  /** Step j of a round. */
  lemma RowAt(x: seq<DWORD>, round: nat, j: nat)
    requires |x| == 16 && round < 4 && j < 16
    ensures var kind := if round == 0 then RoundF else if round == 1 then RoundG else if round == 2 then RoundH else RoundI;
            Row(x, round)[j] == Op(kind, x[WordIndex(16 * round + j)], SHIFTS[round][j % 4], CONSTANTS[round][j])
  {
    assert (16 * round + j) / 16 == round && (16 * round + j) % 16 == j && (16 * round + j) % 4 == j % 4;
  }

  lemma FourSteps(r: Regs, ops: seq<Op>, i: nat)
    requires i + 4 <= |ops|
    ensures Run(r, ops[i..])
         == Run(Forward(Forward(Forward(Forward(r, ops[i]), ops[i + 1]), ops[i + 2]), ops[i + 3]), ops[i + 4..])
  {
    hide Forward;
    var r1 := Forward(r, ops[i]);
    var r2 := Forward(r1, ops[i + 1]);
    var r3 := Forward(r2, ops[i + 2]);
    assert ops[i..][1..] == ops[i + 1..] && ops[i + 1..][1..] == ops[i + 2..];
    assert ops[i + 2..][1..] == ops[i + 3..] && ops[i + 3..][1..] == ops[i + 4..];
    assert Run(r, ops[i..]) == Run(r1, ops[i + 1..]);
    assert Run(r1, ops[i + 1..]) == Run(r2, ops[i + 2..]);
    assert Run(r2, ops[i + 2..]) == Run(r3, ops[i + 3..]);
  }

  lemma Row1Low(x: seq<DWORD>)
    requires |x| == 16
    ensures var ops := Row(x, 0);
            && ops[0] == Op(RoundF, x[0], S11, 0xd76aa478) && ops[1] == Op(RoundF, x[1], S12, 0xe8c7b756)
            && ops[2] == Op(RoundF, x[2], S13, 0x242070db) && ops[3] == Op(RoundF, x[3], S14, 0xc1bdceee)
            && ops[4] == Op(RoundF, x[4], S11, 0xf57c0faf) && ops[5] == Op(RoundF, x[5], S12, 0x4787c62a)
            && ops[6] == Op(RoundF, x[6], S13, 0xa8304613) && ops[7] == Op(RoundF, x[7], S14, 0xfd469501)
  {
    hide OpAt, Row;
    RowAt(x, 0, 0);
    RowAt(x, 0, 1);
    RowAt(x, 0, 2);
    RowAt(x, 0, 3);
    RowAt(x, 0, 4);
    RowAt(x, 0, 5);
    RowAt(x, 0, 6);
    RowAt(x, 0, 7);
  }

  lemma Row1High(x: seq<DWORD>)
    requires |x| == 16
    ensures var ops := Row(x, 0);
            && ops[8] == Op(RoundF, x[8], S11, 0x698098d8) && ops[9] == Op(RoundF, x[9], S12, 0x8b44f7af)
            && ops[10] == Op(RoundF, x[10], S13, 0xffff5bb1) && ops[11] == Op(RoundF, x[11], S14, 0x895cd7be)
            && ops[12] == Op(RoundF, x[12], S11, 0x6b901122) && ops[13] == Op(RoundF, x[13], S12, 0xfd987193)
            && ops[14] == Op(RoundF, x[14], S13, 0xa679438e) && ops[15] == Op(RoundF, x[15], S14, 0x49b40821)
  {
    hide OpAt, Row;
    RowAt(x, 0, 8);
    RowAt(x, 0, 9);
    RowAt(x, 0, 10);
    RowAt(x, 0, 11);
    RowAt(x, 0, 12);
    RowAt(x, 0, 13);
    RowAt(x, 0, 14);
    RowAt(x, 0, 15);
  }

  lemma Row2Low(x: seq<DWORD>)
    requires |x| == 16
    ensures var ops := Row(x, 1);
            && ops[0] == Op(RoundG, x[1], S21, 0xf61e2562) && ops[1] == Op(RoundG, x[6], S22, 0xc040b340)
            && ops[2] == Op(RoundG, x[11], S23, 0x265e5a51) && ops[3] == Op(RoundG, x[0], S24, 0xe9b6c7aa)
            && ops[4] == Op(RoundG, x[5], S21, 0xd62f105d) && ops[5] == Op(RoundG, x[10], S22, 0x2441453)
            && ops[6] == Op(RoundG, x[15], S23, 0xd8a1e681) && ops[7] == Op(RoundG, x[4], S24, 0xe7d3fbc8)
  {
    hide OpAt, Row;
    RowAt(x, 1, 0);
    RowAt(x, 1, 1);
    RowAt(x, 1, 2);
    RowAt(x, 1, 3);
    RowAt(x, 1, 4);
    RowAt(x, 1, 5);
    RowAt(x, 1, 6);
    RowAt(x, 1, 7);
  }

  lemma Row2High(x: seq<DWORD>)
    requires |x| == 16
    ensures var ops := Row(x, 1);
            && ops[8] == Op(RoundG, x[9], S21, 0x21e1cde6) && ops[9] == Op(RoundG, x[14], S22, 0xc33707d6)
            && ops[10] == Op(RoundG, x[3], S23, 0xf4d50d87) && ops[11] == Op(RoundG, x[8], S24, 0x455a14ed)
            && ops[12] == Op(RoundG, x[13], S21, 0xa9e3e905) && ops[13] == Op(RoundG, x[2], S22, 0xfcefa3f8)
            && ops[14] == Op(RoundG, x[7], S23, 0x676f02d9) && ops[15] == Op(RoundG, x[12], S24, 0x8d2a4c8a)
  {
    hide OpAt, Row;
    RowAt(x, 1, 8);
    RowAt(x, 1, 9);
    RowAt(x, 1, 10);
    RowAt(x, 1, 11);
    RowAt(x, 1, 12);
    RowAt(x, 1, 13);
    RowAt(x, 1, 14);
    RowAt(x, 1, 15);
  }

  lemma Row3Low(x: seq<DWORD>)
    requires |x| == 16
    ensures var ops := Row(x, 2);
            && ops[0] == Op(RoundH, x[5], S31, 0xfffa3942) && ops[1] == Op(RoundH, x[8], SS32, 0x8771f681)
            && ops[2] == Op(RoundH, x[11], S33, 0x6d9d6122) && ops[3] == Op(RoundH, x[14], S34, 0xfde5380c)
            && ops[4] == Op(RoundH, x[1], S31, 0xa4beea44) && ops[5] == Op(RoundH, x[4], SS32, 0x4bdecfa9)
            && ops[6] == Op(RoundH, x[7], S33, 0xf6bb4b60) && ops[7] == Op(RoundH, x[10], S34, 0xbebfbc70)
  {
    hide OpAt, Row;
    RowAt(x, 2, 0);
    RowAt(x, 2, 1);
    RowAt(x, 2, 2);
    RowAt(x, 2, 3);
    RowAt(x, 2, 4);
    RowAt(x, 2, 5);
    RowAt(x, 2, 6);
    RowAt(x, 2, 7);
  }

  lemma Row3High(x: seq<DWORD>)
    requires |x| == 16
    ensures var ops := Row(x, 2);
            && ops[8] == Op(RoundH, x[13], S31, 0x289b7ec6) && ops[9] == Op(RoundH, x[0], SS32, 0xeaa127fa)
            && ops[10] == Op(RoundH, x[3], S33, 0xd4ef3085) && ops[11] == Op(RoundH, x[6], S34, 0x4881d05)
            && ops[12] == Op(RoundH, x[9], S31, 0xd9d4d039) && ops[13] == Op(RoundH, x[12], SS32, 0xe6db99e5)
            && ops[14] == Op(RoundH, x[15], S33, 0x1fa27cf8) && ops[15] == Op(RoundH, x[2], S34, 0xc4ac5665)
  {
    hide OpAt, Row;
    RowAt(x, 2, 8);
    RowAt(x, 2, 9);
    RowAt(x, 2, 10);
    RowAt(x, 2, 11);
    RowAt(x, 2, 12);
    RowAt(x, 2, 13);
    RowAt(x, 2, 14);
    RowAt(x, 2, 15);
  }

  lemma Row4Low(x: seq<DWORD>)
    requires |x| == 16
    ensures var ops := Row(x, 3);
            && ops[0] == Op(RoundI, x[0], S41, 0xf4292244) && ops[1] == Op(RoundI, x[7], S42, 0x432aff97)
            && ops[2] == Op(RoundI, x[14], S43, 0xab9423a7) && ops[3] == Op(RoundI, x[5], S44, 0xfc93a039)
            && ops[4] == Op(RoundI, x[12], S41, 0x655b59c3) && ops[5] == Op(RoundI, x[3], S42, 0x8f0ccc92)
            && ops[6] == Op(RoundI, x[10], S43, 0xffeff47d) && ops[7] == Op(RoundI, x[1], S44, 0x85845dd1)
  {
    hide OpAt, Row;
    RowAt(x, 3, 0);
    RowAt(x, 3, 1);
    RowAt(x, 3, 2);
    RowAt(x, 3, 3);
    RowAt(x, 3, 4);
    RowAt(x, 3, 5);
    RowAt(x, 3, 6);
    RowAt(x, 3, 7);
  }

  lemma Row4High(x: seq<DWORD>)
    requires |x| == 16
    ensures var ops := Row(x, 3);
            && ops[8] == Op(RoundI, x[8], S41, 0x6fa87e4f) && ops[9] == Op(RoundI, x[15], S42, 0xfe2ce6e0)
            && ops[10] == Op(RoundI, x[6], S43, 0xa3014314) && ops[11] == Op(RoundI, x[13], S44, 0x4e0811a1)
            && ops[12] == Op(RoundI, x[4], S41, 0xf7537e82) && ops[13] == Op(RoundI, x[11], S42, 0xbd3af235)
            && ops[14] == Op(RoundI, x[2], S43, 0x2ad7d2bb) && ops[15] == Op(RoundI, x[9], S44, 0xeb86d391)
  {
    hide OpAt, Row;
    RowAt(x, 3, 8);
    RowAt(x, 3, 9);
    RowAt(x, 3, 10);
    RowAt(x, 3, 11);
    RowAt(x, 3, 12);
    RowAt(x, 3, 13);
    RowAt(x, 3, 14);
    RowAt(x, 3, 15);
  }

  method Round1(a0: DWORD, b0: DWORD, c0: DWORD, d0: DWORD, x: seq<DWORD>)
    returns (a: DWORD, b: DWORD, c: DWORD, d: DWORD)
    requires |x| == 16
    ensures Regs(a, b, c, d) == Run(Regs(a0, b0, c0, d0), Row(x, 0))
  {
    hide Forward, Row, Run, OpAt;
    ghost var ops := Row(x, 0);
    Row1Low(x);
    Row1High(x);
    a, b, c, d := a0, b0, c0, d0;
    FourSteps(Regs(a, b, c, d), ops, 0);
    a := FF(a, b, c, d, x[0], S11, 0xd76aa478);
    d := FF(d, a, b, c, x[1], S12, 0xe8c7b756);
    c := FF(c, d, a, b, x[2], S13, 0x242070db);
    b := FF(b, c, d, a, x[3], S14, 0xc1bdceee);
    FourSteps(Regs(a, b, c, d), ops, 4);
    a := FF(a, b, c, d, x[4], S11, 0xf57c0faf);
    d := FF(d, a, b, c, x[5], S12, 0x4787c62a);
    c := FF(c, d, a, b, x[6], S13, 0xa8304613);
    b := FF(b, c, d, a, x[7], S14, 0xfd469501);
    FourSteps(Regs(a, b, c, d), ops, 8);
    a := FF(a, b, c, d, x[8], S11, 0x698098d8);
    d := FF(d, a, b, c, x[9], S12, 0x8b44f7af);
    c := FF(c, d, a, b, x[10], S13, 0xffff5bb1);
    b := FF(b, c, d, a, x[11], S14, 0x895cd7be);
    FourSteps(Regs(a, b, c, d), ops, 12);
    a := FF(a, b, c, d, x[12], S11, 0x6b901122);
    d := FF(d, a, b, c, x[13], S12, 0xfd987193);
    c := FF(c, d, a, b, x[14], S13, 0xa679438e);
    b := FF(b, c, d, a, x[15], S14, 0x49b40821);
    assert ops[0..] == ops;
    Done(Regs(a, b, c, d), ops);
  }

  method Round2(a0: DWORD, b0: DWORD, c0: DWORD, d0: DWORD, x: seq<DWORD>)
    returns (a: DWORD, b: DWORD, c: DWORD, d: DWORD)
    requires |x| == 16
    ensures Regs(a, b, c, d) == Run(Regs(a0, b0, c0, d0), Row(x, 1))
  {
    hide Forward, Row, Run, OpAt;
    ghost var ops := Row(x, 1);
    Row2Low(x);
    Row2High(x);
    a, b, c, d := a0, b0, c0, d0;
    FourSteps(Regs(a, b, c, d), ops, 0);
    a := GG(a, b, c, d, x[1], S21, 0xf61e2562);
    d := GG(d, a, b, c, x[6], S22, 0xc040b340);
    c := GG(c, d, a, b, x[11], S23, 0x265e5a51);
    b := GG(b, c, d, a, x[0], S24, 0xe9b6c7aa);
    FourSteps(Regs(a, b, c, d), ops, 4);
    a := GG(a, b, c, d, x[5], S21, 0xd62f105d);
    d := GG(d, a, b, c, x[10], S22, 0x2441453);
    c := GG(c, d, a, b, x[15], S23, 0xd8a1e681);
    b := GG(b, c, d, a, x[4], S24, 0xe7d3fbc8);
    FourSteps(Regs(a, b, c, d), ops, 8);
    a := GG(a, b, c, d, x[9], S21, 0x21e1cde6);
    d := GG(d, a, b, c, x[14], S22, 0xc33707d6);
    c := GG(c, d, a, b, x[3], S23, 0xf4d50d87);
    b := GG(b, c, d, a, x[8], S24, 0x455a14ed);
    FourSteps(Regs(a, b, c, d), ops, 12);
    a := GG(a, b, c, d, x[13], S21, 0xa9e3e905);
    d := GG(d, a, b, c, x[2], S22, 0xfcefa3f8);
    c := GG(c, d, a, b, x[7], S23, 0x676f02d9);
    b := GG(b, c, d, a, x[12], S24, 0x8d2a4c8a);
    assert ops[0..] == ops;
    Done(Regs(a, b, c, d), ops);
  }

  method Round3(a0: DWORD, b0: DWORD, c0: DWORD, d0: DWORD, x: seq<DWORD>)
    returns (a: DWORD, b: DWORD, c: DWORD, d: DWORD)
    requires |x| == 16
    ensures Regs(a, b, c, d) == Run(Regs(a0, b0, c0, d0), Row(x, 2))
  {
    hide Forward, Row, Run, OpAt;
    ghost var ops := Row(x, 2);
    Row3Low(x);
    Row3High(x);
    a, b, c, d := a0, b0, c0, d0;
    FourSteps(Regs(a, b, c, d), ops, 0);
    a := HH(a, b, c, d, x[5], S31, 0xfffa3942);
    d := HH(d, a, b, c, x[8], SS32, 0x8771f681);
    c := HH(c, d, a, b, x[11], S33, 0x6d9d6122);
    b := HH(b, c, d, a, x[14], S34, 0xfde5380c);
    FourSteps(Regs(a, b, c, d), ops, 4);
    a := HH(a, b, c, d, x[1], S31, 0xa4beea44);
    d := HH(d, a, b, c, x[4], SS32, 0x4bdecfa9);
    c := HH(c, d, a, b, x[7], S33, 0xf6bb4b60);
    b := HH(b, c, d, a, x[10], S34, 0xbebfbc70);
    FourSteps(Regs(a, b, c, d), ops, 8);
    a := HH(a, b, c, d, x[13], S31, 0x289b7ec6);
    d := HH(d, a, b, c, x[0], SS32, 0xeaa127fa);
    c := HH(c, d, a, b, x[3], S33, 0xd4ef3085);
    b := HH(b, c, d, a, x[6], S34, 0x4881d05);
    FourSteps(Regs(a, b, c, d), ops, 12);
    a := HH(a, b, c, d, x[9], S31, 0xd9d4d039);
    d := HH(d, a, b, c, x[12], SS32, 0xe6db99e5);
    c := HH(c, d, a, b, x[15], S33, 0x1fa27cf8);
    b := HH(b, c, d, a, x[2], S34, 0xc4ac5665);
    assert ops[0..] == ops;
    Done(Regs(a, b, c, d), ops);
  }

  method Round4(a0: DWORD, b0: DWORD, c0: DWORD, d0: DWORD, x: seq<DWORD>)
    returns (a: DWORD, b: DWORD, c: DWORD, d: DWORD)
    requires |x| == 16
    ensures Regs(a, b, c, d) == Run(Regs(a0, b0, c0, d0), Row(x, 3))
  {
    hide Forward, Row, Run, OpAt;
    ghost var ops := Row(x, 3);
    Row4Low(x);
    Row4High(x);
    a, b, c, d := a0, b0, c0, d0;
    FourSteps(Regs(a, b, c, d), ops, 0);
    a := II(a, b, c, d, x[0], S41, 0xf4292244);
    d := II(d, a, b, c, x[7], S42, 0x432aff97);
    c := II(c, d, a, b, x[14], S43, 0xab9423a7);
    b := II(b, c, d, a, x[5], S44, 0xfc93a039);
    FourSteps(Regs(a, b, c, d), ops, 4);
    a := II(a, b, c, d, x[12], S41, 0x655b59c3);
    d := II(d, a, b, c, x[3], S42, 0x8f0ccc92);
    c := II(c, d, a, b, x[10], S43, 0xffeff47d);
    b := II(b, c, d, a, x[1], S44, 0x85845dd1);
    FourSteps(Regs(a, b, c, d), ops, 8);
    a := II(a, b, c, d, x[8], S41, 0x6fa87e4f);
    d := II(d, a, b, c, x[15], S42, 0xfe2ce6e0);
    c := II(c, d, a, b, x[6], S43, 0xa3014314);
    b := II(b, c, d, a, x[13], S44, 0x4e0811a1);
    FourSteps(Regs(a, b, c, d), ops, 12);
    a := II(a, b, c, d, x[4], S41, 0xf7537e82);
    d := II(d, a, b, c, x[11], S42, 0xbd3af235);
    c := II(c, d, a, b, x[2], S43, 0x2ad7d2bb);
    b := II(b, c, d, a, x[9], S44, 0xeb86d391);
    assert ops[0..] == ops;
    Done(Regs(a, b, c, d), ops);
  }

  lemma Done(r: Regs, ops: seq<Op>)
    requires |ops| == 16
    ensures Run(r, ops[16..]) == r
  {
  }

  lemma {:induction false} RunSum(r: Regs, a: seq<Op>, b: seq<Op>)
    ensures Run(r, a + b) == Run(Run(r, a), b)
    decreases a
  {
    hide Forward;
    if a == [] {
      assert a + b == b;
    } else {
      assert (a + b)[1..] == a[1..] + b;
      RunSum(Forward(r, a[0]), a[1..], b);
    }
  }

  /** The 64 steps are the four rounds. */
  lemma Rounds(r: Regs, x: seq<DWORD>)
    requires |x| == 16
    ensures Run(r, Ops(x)) == Run(Run(Run(Run(r, Row(x, 0)), Row(x, 1)), Row(x, 2)), Row(x, 3))
  {
    hide OpAt, Run;
    assert Ops(x) == Row(x, 0) + (Row(x, 1) + (Row(x, 2) + Row(x, 3)));
    RunSum(r, Row(x, 0), Row(x, 1) + (Row(x, 2) + Row(x, 3)));
    RunSum(Run(r, Row(x, 0)), Row(x, 1), Row(x, 2) + Row(x, 3));
    RunSum(Run(Run(r, Row(x, 0)), Row(x, 1)), Row(x, 2), Row(x, 3));
  }

  /** MD5Transform on the decoded words of a block. */
  method TransformWords(state: Regs, x: seq<DWORD>) returns (after: Regs)
    requires |x| == 16
    ensures after == Transform(state, x)
  {
    hide Run, Row, Ops;
    var a, b, c, d := state.a, state.b, state.c, state.d;
    a, b, c, d := Round1(a, b, c, d, x);
    a, b, c, d := Round2(a, b, c, d, x);
    a, b, c, d := Round3(a, b, c, d, x);
    a, b, c, d := Round4(a, b, c, d, x);
    Rounds(state, x);
    after := Regs((state.a + a) % WORDS, (state.b + b) % WORDS, (state.c + c) % WORDS, (state.d + d) % WORDS);
  }
}
