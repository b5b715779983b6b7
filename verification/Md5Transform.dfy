// The program's unrolled block transformation, proved to be the compression of RFC 1321.
module Md5Transform {
  import opened Md5Words
  import opened Md5Rounds

  const S11: Amount := 7
  const S12: Amount := 12
  const S13: Amount := 17
  const S14: Amount := 22
  const S21: Amount := 5
  const S22: Amount := 9
  const S23: Amount := 14
  const S24: Amount := 20
  const S31: Amount := 4
  const S32: Amount := 11
  const S33: Amount := 16
  const S34: Amount := 23
  const S41: Amount := 6
  const S42: Amount := 10
  const S43: Amount := 15
  const S44: Amount := 21

  lemma FourSteps(k: nat, s: Registers, x: seq<Word>)
    requires k + 4 <= 64 && |x| == 16
    ensures Steps(k + 4, s, x) == Step(k + 3, Step(k + 2, Step(k + 1, Step(k, Steps(k, s, x), x), x), x), x)
  {
    hide Step;
    assert Steps(k + 2, s, x) == Step(k + 1, Step(k, Steps(k, s, x), x), x);
  }

  lemma PlusCommutes(a: Word, b: Word)
    ensures Plus(a, b) == Plus(b, a)
  {
  }

  /** The macros add in a different order than the standard writes it. */
  lemma MacroOrder(f: Word, a: Word, b: Word, x: Word, s: Amount, ac: Word)
    ensures Plus(RotateLeft(Plus(a, Addend(f, x, ac)), s), b) == Operation(f, a, b, x, s, ac)
  {
    hide RotateLeft, Plus, Sum, Addend;
    SumOrder(a, f, x, ac);
    PlusCommutes(RotateLeft(Sum(a, f, x, ac), s), b);
  }

  function Ff(a: Word, b: Word, c: Word, d: Word, x: Word, s: Amount, ac: Word): (r: Word)
    ensures r == Operation(F(b, c, d), a, b, x, s, ac)
  {
    hide *;
    MacroOrder(F(b, c, d), a, b, x, s, ac);
    Plus(RotateLeft(Plus(a, Addend(F(b, c, d), x, ac)), s), b)
  }

  function Gg(a: Word, b: Word, c: Word, d: Word, x: Word, s: Amount, ac: Word): (r: Word)
    ensures r == Operation(G(b, c, d), a, b, x, s, ac)
  {
    hide *;
    MacroOrder(G(b, c, d), a, b, x, s, ac);
    Plus(RotateLeft(Plus(a, Addend(G(b, c, d), x, ac)), s), b)
  }

  function Hh(a: Word, b: Word, c: Word, d: Word, x: Word, s: Amount, ac: Word): (r: Word)
    ensures r == Operation(H(b, c, d), a, b, x, s, ac)
  {
    hide *;
    MacroOrder(H(b, c, d), a, b, x, s, ac);
    Plus(RotateLeft(Plus(a, Addend(H(b, c, d), x, ac)), s), b)
  }

  function Ii(a: Word, b: Word, c: Word, d: Word, x: Word, s: Amount, ac: Word): (r: Word)
    ensures r == Operation(I(b, c, d), a, b, x, s, ac)
  {
    hide *;
    MacroOrder(I(b, c, d), a, b, x, s, ac);
    Plus(RotateLeft(Plus(a, Addend(I(b, c, d), x, ac)), s), b)
  }

  /** The constants of round 1. */
  lemma Constants1()
    ensures BlockIndex(0) == 0 && Shift(0) == S11 && T(0) == 0xd76aa478
    ensures BlockIndex(1) == 1 && Shift(1) == S12 && T(1) == 0xe8c7b756
    ensures BlockIndex(2) == 2 && Shift(2) == S13 && T(2) == 0x242070db
    ensures BlockIndex(3) == 3 && Shift(3) == S14 && T(3) == 0xc1bdceee
    ensures BlockIndex(4) == 4 && Shift(4) == S11 && T(4) == 0xf57c0faf
    ensures BlockIndex(5) == 5 && Shift(5) == S12 && T(5) == 0x4787c62a
    ensures BlockIndex(6) == 6 && Shift(6) == S13 && T(6) == 0xa8304613
    ensures BlockIndex(7) == 7 && Shift(7) == S14 && T(7) == 0xfd469501
    ensures BlockIndex(8) == 8 && Shift(8) == S11 && T(8) == 0x698098d8
    ensures BlockIndex(9) == 9 && Shift(9) == S12 && T(9) == 0x8b44f7af
    ensures BlockIndex(10) == 10 && Shift(10) == S13 && T(10) == 0xffff5bb1
    ensures BlockIndex(11) == 11 && Shift(11) == S14 && T(11) == 0x895cd7be
    ensures BlockIndex(12) == 12 && Shift(12) == S11 && T(12) == 0x6b901122
    ensures BlockIndex(13) == 13 && Shift(13) == S12 && T(13) == 0xfd987193
    ensures BlockIndex(14) == 14 && Shift(14) == S13 && T(14) == 0xa679438e
    ensures BlockIndex(15) == 15 && Shift(15) == S14 && T(15) == 0x49b40821
  {
    hide T2, T3, T4;
  }

  /** The constants of round 2. */
  lemma Constants2()
    ensures BlockIndex(16) == 1 && Shift(16) == S21 && T(16) == 0xf61e2562
    ensures BlockIndex(17) == 6 && Shift(17) == S22 && T(17) == 0xc040b340
    ensures BlockIndex(18) == 11 && Shift(18) == S23 && T(18) == 0x265e5a51
    ensures BlockIndex(19) == 0 && Shift(19) == S24 && T(19) == 0xe9b6c7aa
    ensures BlockIndex(20) == 5 && Shift(20) == S21 && T(20) == 0xd62f105d
    ensures BlockIndex(21) == 10 && Shift(21) == S22 && T(21) == 0x02441453
    ensures BlockIndex(22) == 15 && Shift(22) == S23 && T(22) == 0xd8a1e681
    ensures BlockIndex(23) == 4 && Shift(23) == S24 && T(23) == 0xe7d3fbc8
    ensures BlockIndex(24) == 9 && Shift(24) == S21 && T(24) == 0x21e1cde6
    ensures BlockIndex(25) == 14 && Shift(25) == S22 && T(25) == 0xc33707d6
    ensures BlockIndex(26) == 3 && Shift(26) == S23 && T(26) == 0xf4d50d87
    ensures BlockIndex(27) == 8 && Shift(27) == S24 && T(27) == 0x455a14ed
    ensures BlockIndex(28) == 13 && Shift(28) == S21 && T(28) == 0xa9e3e905
    ensures BlockIndex(29) == 2 && Shift(29) == S22 && T(29) == 0xfcefa3f8
    ensures BlockIndex(30) == 7 && Shift(30) == S23 && T(30) == 0x676f02d9
    ensures BlockIndex(31) == 12 && Shift(31) == S24 && T(31) == 0x8d2a4c8a
  {
    hide T1, T3, T4;
  }

  /** The constants of round 3. */
  lemma Constants3()
    ensures BlockIndex(32) == 5 && Shift(32) == S31 && T(32) == 0xfffa3942
    ensures BlockIndex(33) == 8 && Shift(33) == S32 && T(33) == 0x8771f681
    ensures BlockIndex(34) == 11 && Shift(34) == S33 && T(34) == 0x6d9d6122
    ensures BlockIndex(35) == 14 && Shift(35) == S34 && T(35) == 0xfde5380c
    ensures BlockIndex(36) == 1 && Shift(36) == S31 && T(36) == 0xa4beea44
    ensures BlockIndex(37) == 4 && Shift(37) == S32 && T(37) == 0x4bdecfa9
    ensures BlockIndex(38) == 7 && Shift(38) == S33 && T(38) == 0xf6bb4b60
    ensures BlockIndex(39) == 10 && Shift(39) == S34 && T(39) == 0xbebfbc70
    ensures BlockIndex(40) == 13 && Shift(40) == S31 && T(40) == 0x289b7ec6
    ensures BlockIndex(41) == 0 && Shift(41) == S32 && T(41) == 0xeaa127fa
    ensures BlockIndex(42) == 3 && Shift(42) == S33 && T(42) == 0xd4ef3085
    ensures BlockIndex(43) == 6 && Shift(43) == S34 && T(43) == 0x04881d05
    ensures BlockIndex(44) == 9 && Shift(44) == S31 && T(44) == 0xd9d4d039
    ensures BlockIndex(45) == 12 && Shift(45) == S32 && T(45) == 0xe6db99e5
    ensures BlockIndex(46) == 15 && Shift(46) == S33 && T(46) == 0x1fa27cf8
    ensures BlockIndex(47) == 2 && Shift(47) == S34 && T(47) == 0xc4ac5665
  {
    hide T1, T2, T4;
  }

  /** The constants of round 4. */
  lemma Constants4()
    ensures BlockIndex(48) == 0 && Shift(48) == S41 && T(48) == 0xf4292244
    ensures BlockIndex(49) == 7 && Shift(49) == S42 && T(49) == 0x432aff97
    ensures BlockIndex(50) == 14 && Shift(50) == S43 && T(50) == 0xab9423a7
    ensures BlockIndex(51) == 5 && Shift(51) == S44 && T(51) == 0xfc93a039
    ensures BlockIndex(52) == 12 && Shift(52) == S41 && T(52) == 0x655b59c3
    ensures BlockIndex(53) == 3 && Shift(53) == S42 && T(53) == 0x8f0ccc92
    ensures BlockIndex(54) == 10 && Shift(54) == S43 && T(54) == 0xffeff47d
    ensures BlockIndex(55) == 1 && Shift(55) == S44 && T(55) == 0x85845dd1
    ensures BlockIndex(56) == 8 && Shift(56) == S41 && T(56) == 0x6fa87e4f
    ensures BlockIndex(57) == 15 && Shift(57) == S42 && T(57) == 0xfe2ce6e0
    ensures BlockIndex(58) == 6 && Shift(58) == S43 && T(58) == 0xa3014314
    ensures BlockIndex(59) == 13 && Shift(59) == S44 && T(59) == 0x4e0811a1
    ensures BlockIndex(60) == 4 && Shift(60) == S41 && T(60) == 0xf7537e82
    ensures BlockIndex(61) == 11 && Shift(61) == S42 && T(61) == 0xbd3af235
    ensures BlockIndex(62) == 2 && Shift(62) == S43 && T(62) == 0x2ad7d2bb
    ensures BlockIndex(63) == 9 && Shift(63) == S44 && T(63) == 0xeb86d391
  {
    hide T1, T2, T3;
  }

  method Round1(r: Registers, x: seq<Word>, ghost s: Registers) returns (q: Registers)
    requires |x| == 16 && r == Steps(0, s, x)
    ensures q == Steps(16, s, x)
  {
    hide Operation, F, G, H, I, Ff, Gg, Hh, Ii, Steps, BlockIndex, Shift, T;
    Constants1();
    var a, b, c, d := r.a, r.b, r.c, r.d;
    a := Ff(a, b, c, d, x[0], S11, 0xd76aa478);
    d := Ff(d, a, b, c, x[1], S12, 0xe8c7b756);
    c := Ff(c, d, a, b, x[2], S13, 0x242070db);
    b := Ff(b, c, d, a, x[3], S14, 0xc1bdceee);
    FourSteps(0, s, x);
    assert Steps(4, s, x) == Registers(a, b, c, d);
    a := Ff(a, b, c, d, x[4], S11, 0xf57c0faf);
    d := Ff(d, a, b, c, x[5], S12, 0x4787c62a);
    c := Ff(c, d, a, b, x[6], S13, 0xa8304613);
    b := Ff(b, c, d, a, x[7], S14, 0xfd469501);
    FourSteps(4, s, x);
    assert Steps(8, s, x) == Registers(a, b, c, d);
    a := Ff(a, b, c, d, x[8], S11, 0x698098d8);
    d := Ff(d, a, b, c, x[9], S12, 0x8b44f7af);
    c := Ff(c, d, a, b, x[10], S13, 0xffff5bb1);
    b := Ff(b, c, d, a, x[11], S14, 0x895cd7be);
    FourSteps(8, s, x);
    assert Steps(12, s, x) == Registers(a, b, c, d);
    a := Ff(a, b, c, d, x[12], S11, 0x6b901122);
    d := Ff(d, a, b, c, x[13], S12, 0xfd987193);
    c := Ff(c, d, a, b, x[14], S13, 0xa679438e);
    b := Ff(b, c, d, a, x[15], S14, 0x49b40821);
    FourSteps(12, s, x);
    assert Steps(16, s, x) == Registers(a, b, c, d);
    q := Registers(a, b, c, d);
  }

  method Round2(r: Registers, x: seq<Word>, ghost s: Registers) returns (q: Registers)
    requires |x| == 16 && r == Steps(16, s, x)
    ensures q == Steps(32, s, x)
  {
    hide Operation, F, G, H, I, Ff, Gg, Hh, Ii, Steps, BlockIndex, Shift, T;
    Constants2();
    var a, b, c, d := r.a, r.b, r.c, r.d;
    a := Gg(a, b, c, d, x[1], S21, 0xf61e2562);
    d := Gg(d, a, b, c, x[6], S22, 0xc040b340);
    c := Gg(c, d, a, b, x[11], S23, 0x265e5a51);
    b := Gg(b, c, d, a, x[0], S24, 0xe9b6c7aa);
    FourSteps(16, s, x);
    assert Steps(20, s, x) == Registers(a, b, c, d);
    a := Gg(a, b, c, d, x[5], S21, 0xd62f105d);
    d := Gg(d, a, b, c, x[10], S22, 0x02441453);
    c := Gg(c, d, a, b, x[15], S23, 0xd8a1e681);
    b := Gg(b, c, d, a, x[4], S24, 0xe7d3fbc8);
    FourSteps(20, s, x);
    assert Steps(24, s, x) == Registers(a, b, c, d);
    a := Gg(a, b, c, d, x[9], S21, 0x21e1cde6);
    d := Gg(d, a, b, c, x[14], S22, 0xc33707d6);
    c := Gg(c, d, a, b, x[3], S23, 0xf4d50d87);
    b := Gg(b, c, d, a, x[8], S24, 0x455a14ed);
    FourSteps(24, s, x);
    assert Steps(28, s, x) == Registers(a, b, c, d);
    a := Gg(a, b, c, d, x[13], S21, 0xa9e3e905);
    d := Gg(d, a, b, c, x[2], S22, 0xfcefa3f8);
    c := Gg(c, d, a, b, x[7], S23, 0x676f02d9);
    b := Gg(b, c, d, a, x[12], S24, 0x8d2a4c8a);
    FourSteps(28, s, x);
    assert Steps(32, s, x) == Registers(a, b, c, d);
    q := Registers(a, b, c, d);
  }

  method Round3(r: Registers, x: seq<Word>, ghost s: Registers) returns (q: Registers)
    requires |x| == 16 && r == Steps(32, s, x)
    ensures q == Steps(48, s, x)
  {
    hide Operation, F, G, H, I, Ff, Gg, Hh, Ii, Steps, BlockIndex, Shift, T;
    Constants3();
    var a, b, c, d := r.a, r.b, r.c, r.d;
    a := Hh(a, b, c, d, x[5], S31, 0xfffa3942);
    d := Hh(d, a, b, c, x[8], S32, 0x8771f681);
    c := Hh(c, d, a, b, x[11], S33, 0x6d9d6122);
    b := Hh(b, c, d, a, x[14], S34, 0xfde5380c);
    FourSteps(32, s, x);
    assert Steps(36, s, x) == Registers(a, b, c, d);
    a := Hh(a, b, c, d, x[1], S31, 0xa4beea44);
    d := Hh(d, a, b, c, x[4], S32, 0x4bdecfa9);
    c := Hh(c, d, a, b, x[7], S33, 0xf6bb4b60);
    b := Hh(b, c, d, a, x[10], S34, 0xbebfbc70);
    FourSteps(36, s, x);
    assert Steps(40, s, x) == Registers(a, b, c, d);
    a := Hh(a, b, c, d, x[13], S31, 0x289b7ec6);
    d := Hh(d, a, b, c, x[0], S32, 0xeaa127fa);
    c := Hh(c, d, a, b, x[3], S33, 0xd4ef3085);
    b := Hh(b, c, d, a, x[6], S34, 0x04881d05);
    FourSteps(40, s, x);
    assert Steps(44, s, x) == Registers(a, b, c, d);
    a := Hh(a, b, c, d, x[9], S31, 0xd9d4d039);
    d := Hh(d, a, b, c, x[12], S32, 0xe6db99e5);
    c := Hh(c, d, a, b, x[15], S33, 0x1fa27cf8);
    b := Hh(b, c, d, a, x[2], S34, 0xc4ac5665);
    FourSteps(44, s, x);
    assert Steps(48, s, x) == Registers(a, b, c, d);
    q := Registers(a, b, c, d);
  }

  method Round4(r: Registers, x: seq<Word>, ghost s: Registers) returns (q: Registers)
    requires |x| == 16 && r == Steps(48, s, x)
    ensures q == Steps(64, s, x)
  {
    hide Operation, F, G, H, I, Ff, Gg, Hh, Ii, Steps, BlockIndex, Shift, T;
    Constants4();
    var a, b, c, d := r.a, r.b, r.c, r.d;
    a := Ii(a, b, c, d, x[0], S41, 0xf4292244);
    d := Ii(d, a, b, c, x[7], S42, 0x432aff97);
    c := Ii(c, d, a, b, x[14], S43, 0xab9423a7);
    b := Ii(b, c, d, a, x[5], S44, 0xfc93a039);
    FourSteps(48, s, x);
    assert Steps(52, s, x) == Registers(a, b, c, d);
    a := Ii(a, b, c, d, x[12], S41, 0x655b59c3);
    d := Ii(d, a, b, c, x[3], S42, 0x8f0ccc92);
    c := Ii(c, d, a, b, x[10], S43, 0xffeff47d);
    b := Ii(b, c, d, a, x[1], S44, 0x85845dd1);
    FourSteps(52, s, x);
    assert Steps(56, s, x) == Registers(a, b, c, d);
    a := Ii(a, b, c, d, x[8], S41, 0x6fa87e4f);
    d := Ii(d, a, b, c, x[15], S42, 0xfe2ce6e0);
    c := Ii(c, d, a, b, x[6], S43, 0xa3014314);
    b := Ii(b, c, d, a, x[13], S44, 0x4e0811a1);
    FourSteps(56, s, x);
    assert Steps(60, s, x) == Registers(a, b, c, d);
    a := Ii(a, b, c, d, x[4], S41, 0xf7537e82);
    d := Ii(d, a, b, c, x[11], S42, 0xbd3af235);
    c := Ii(c, d, a, b, x[2], S43, 0x2ad7d2bb);
    b := Ii(b, c, d, a, x[9], S44, 0xeb86d391);
    FourSteps(60, s, x);
    assert Steps(64, s, x) == Registers(a, b, c, d);
    q := Registers(a, b, c, d);
  }

  lemma NoSteps(s: Registers, x: seq<Word>)
    requires |x| == 16
    ensures Steps(0, s, x) == s
  {
  }

  method AddTo(state: array<Word>, r: Registers)
    requires state.Length == 4
    modifies state
    ensures state[..] == Add(old(state[..]), r)
  {
    hide Plus;
    state[0] := Plus(state[0], r.a);
    state[1] := Plus(state[1], r.b);
    state[2] := Plus(state[2], r.c);
    state[3] := Plus(state[3], r.d);
  }

  method Transform(state: array<Word>, block: seq<Byte>)
    requires state.Length == 4 && |block| == 64
    modifies state
    ensures state[..] == Compress(old(state[..]), block)
  {
    hide Steps, Add, DecodeWords;
    var x := new Word[16];
    Decode(x, block, 64);
    assert x[..16] == x[..] && block[..64] == block;
    ghost var s := Registers(state[0], state[1], state[2], state[3]);
    NoSteps(s, x[..]);
    var r := Round1(Registers(state[0], state[1], state[2], state[3]), x[..], s);
    r := Round2(r, x[..], s);
    r := Round3(r, x[..], s);
    r := Round4(r, x[..], s);
    AddTo(state, r);
  }
}
