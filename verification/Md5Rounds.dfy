// The MD5 compression function as RFC 1321, section 3.4 defines it: four rounds of 16 operations on
// rotating registers. The operations before the final additions are a bijection.
module Md5Rounds {
  import opened Md5Words

  function F(x: Word, y: Word, z: Word): Word { (x & y) | (!x & z) }

  function G(x: Word, y: Word, z: Word): Word { (x & z) | (y & !z) }

  function H(x: Word, y: Word, z: Word): Word { x ^ y ^ z }

  function I(x: Word, y: Word, z: Word): Word { y ^ (x | !z) }

  /** Bit by bit, F is y where x is set and z where it is not. */
  lemma FSelects(x: Word, y: Word, z: Word)
    ensures F(x, y, z) & x == y & x && F(x, y, z) & !x == z & !x
  {
  }

  /** G selects with z. */
  lemma GSelects(x: Word, y: Word, z: Word)
    ensures G(x, y, z) & z == x & z && G(x, y, z) & !z == y & !z
  {
  }

  /** H does not depend on the order of its arguments. */
  lemma HIsSymmetric(x: Word, y: Word, z: Word)
    ensures H(x, y, z) == H(y, x, z) == H(x, z, y)
  {
  }

  /** Of zeros H is zero, and every flipped bit flips it. */
  lemma HFlips(x: Word, y: Word, z: Word, w: Word)
    ensures H(x, y, z) ^ H(x, y, w) == z ^ w && H(0, 0, 0) == 0
  {
  }

  /** I differs from y except where x is unset and z is set. */
  lemma IFlips(x: Word, y: Word, z: Word)
    ensures !(I(x, y, z) ^ y) == !x & z
  {
  }

  /** Addition of words, modulo 2^32. */
  function Plus(a: Word, b: Word): Word { a + b }

  /** What an operation rotates, and the part of it that does not depend on the register it changes. */
  function Sum(a: Word, f: Word, xk: Word, t: Word): Word { a + f + xk + t }

  function Addend(f: Word, xk: Word, t: Word): Word { f + xk + t }

  type Amount = n: bv6 | n <= 32

  function RotateLeft(x: Word, n: Amount): Word
  {
    (x << n) | (x >> (32 - n))
  }

  /** One operation: `a = b + ((a + f + X[k] + T[i]) <<< s)`. */
  function Operation(f: Word, a: Word, b: Word, xk: Word, s: Amount, t: Word): Word
  {
    Plus(b, RotateLeft(Sum(a, f, xk, t), s))
  }

  datatype Registers = Registers(a: Word, b: Word, c: Word, d: Word)

  /** The mixing function of operation `i`, counting the 64 operations from 0. */
  function Mix(i: nat, r: Registers): Word
  {
    if i < 16 then F(r.b, r.c, r.d)
    else if i < 32 then G(r.b, r.c, r.d)
    else if i < 48 then H(r.b, r.c, r.d)
    else I(r.b, r.c, r.d)
  }

  /** The word of the block that operation `i` uses. */
  function BlockIndex(i: nat): (k: nat)
    ensures k < 16
  {
    if i < 16 then i
    else if i < 32 then (5 * i + 1) % 16
    else if i < 48 then (3 * i + 5) % 16
    else (7 * i) % 16
  }

  function Shift(i: nat): Amount
  {
    if i < 16 then (if i % 4 == 0 then 7 else if i % 4 == 1 then 12 else if i % 4 == 2 then 17 else 22)
    else if i < 32 then (if i % 4 == 0 then 5 else if i % 4 == 1 then 9 else if i % 4 == 2 then 14 else 20)
    else if i < 48 then (if i % 4 == 0 then 4 else if i % 4 == 1 then 11 else if i % 4 == 2 then 16 else 23)
    else (if i % 4 == 0 then 6 else if i % 4 == 1 then 10 else if i % 4 == 2 then 15 else 21)
  }

  // The table T[1..64] of the standard, one function for each round.

  function T1(j: nat): Word
    requires j < 16
  {
    match j
    case 0 => 0xd76aa478
    case 1 => 0xe8c7b756
    case 2 => 0x242070db
    case 3 => 0xc1bdceee
    case 4 => 0xf57c0faf
    case 5 => 0x4787c62a
    case 6 => 0xa8304613
    case 7 => 0xfd469501
    case 8 => 0x698098d8
    case 9 => 0x8b44f7af
    case 10 => 0xffff5bb1
    case 11 => 0x895cd7be
    case 12 => 0x6b901122
    case 13 => 0xfd987193
    case 14 => 0xa679438e
    case _ => 0x49b40821
  }

  function T2(j: nat): Word
    requires j < 16
  {
    match j
    case 0 => 0xf61e2562
    case 1 => 0xc040b340
    case 2 => 0x265e5a51
    case 3 => 0xe9b6c7aa
    case 4 => 0xd62f105d
    case 5 => 0x02441453
    case 6 => 0xd8a1e681
    case 7 => 0xe7d3fbc8
    case 8 => 0x21e1cde6
    case 9 => 0xc33707d6
    case 10 => 0xf4d50d87
    case 11 => 0x455a14ed
    case 12 => 0xa9e3e905
    case 13 => 0xfcefa3f8
    case 14 => 0x676f02d9
    case _ => 0x8d2a4c8a
  }

  function T3(j: nat): Word
    requires j < 16
  {
    match j
    case 0 => 0xfffa3942
    case 1 => 0x8771f681
    case 2 => 0x6d9d6122
    case 3 => 0xfde5380c
    case 4 => 0xa4beea44
    case 5 => 0x4bdecfa9
    case 6 => 0xf6bb4b60
    case 7 => 0xbebfbc70
    case 8 => 0x289b7ec6
    case 9 => 0xeaa127fa
    case 10 => 0xd4ef3085
    case 11 => 0x04881d05
    case 12 => 0xd9d4d039
    case 13 => 0xe6db99e5
    case 14 => 0x1fa27cf8
    case _ => 0xc4ac5665
  }

  function T4(j: nat): Word
    requires j < 16
  {
    match j
    case 0 => 0xf4292244
    case 1 => 0x432aff97
    case 2 => 0xab9423a7
    case 3 => 0xfc93a039
    case 4 => 0x655b59c3
    case 5 => 0x8f0ccc92
    case 6 => 0xffeff47d
    case 7 => 0x85845dd1
    case 8 => 0x6fa87e4f
    case 9 => 0xfe2ce6e0
    case 10 => 0xa3014314
    case 11 => 0x4e0811a1
    case 12 => 0xf7537e82
    case 13 => 0xbd3af235
    case 14 => 0x2ad7d2bb
    case _ => 0xeb86d391
  }

  function T(i: nat): Word
    requires i < 64
  {
    if i < 16 then T1(i) else if i < 32 then T2(i - 16) else if i < 48 then T3(i - 32) else T4(i - 48)
  }

  /** Operation `i`, with the registers renamed so that the next one reads the same: the standard's
      operand lists [ABCD], [DABC], [CDAB], [BCDA] in turn. */
  function Step(i: nat, r: Registers, x: seq<Word>): Registers
    requires i < 64 && |x| == 16
  {
    Registers(r.d, Operation(Mix(i, r), r.a, r.b, x[BlockIndex(i)], Shift(i), T(i)), r.b, r.c)
  }

  /** The first `k` operations. */
  function Steps(k: nat, r: Registers, x: seq<Word>): Registers
    requires k <= 64 && |x| == 16
  {
    if k == 0 then r else Step(k - 1, Steps(k - 1, r, x), x)
  }

  function Add(state: seq<Word>, r: Registers): (s: seq<Word>)
    requires |state| == 4
    ensures |s| == 4
  {
    [Plus(state[0], r.a), Plus(state[1], r.b), Plus(state[2], r.c), Plus(state[3], r.d)]
  }

  /** The new state after one 64-byte block. */
  function Compress(state: seq<Word>, block: seq<Byte>): (s: seq<Word>)
    requires |state| == 4 && |block| == 64
    ensures |s| == 4
  {
    Add(state, Steps(64, Registers(state[0], state[1], state[2], state[3]), DecodeWords(block)))
  }

  // ----- rotations and additions can be undone

  function RotateRight(x: Word, n: Amount): Word
  {
    (x >> n) | (x << (32 - n))
  }

  // One lemma for each shift amount in use.

  lemma RotateBy4(x: Word)
    ensures RotateRight(RotateLeft(x, 4), 4) == x && RotateLeft(RotateRight(x, 4), 4) == x
  {
  }

  lemma RotateBy5(x: Word)
    ensures RotateRight(RotateLeft(x, 5), 5) == x && RotateLeft(RotateRight(x, 5), 5) == x
  {
  }

  lemma RotateBy6(x: Word)
    ensures RotateRight(RotateLeft(x, 6), 6) == x && RotateLeft(RotateRight(x, 6), 6) == x
  {
  }

  lemma RotateBy7(x: Word)
    ensures RotateRight(RotateLeft(x, 7), 7) == x && RotateLeft(RotateRight(x, 7), 7) == x
  {
  }

  lemma RotateBy9(x: Word)
    ensures RotateRight(RotateLeft(x, 9), 9) == x && RotateLeft(RotateRight(x, 9), 9) == x
  {
  }

  lemma RotateBy10(x: Word)
    ensures RotateRight(RotateLeft(x, 10), 10) == x && RotateLeft(RotateRight(x, 10), 10) == x
  {
  }

  lemma RotateBy11(x: Word)
    ensures RotateRight(RotateLeft(x, 11), 11) == x && RotateLeft(RotateRight(x, 11), 11) == x
  {
  }

  lemma RotateBy12(x: Word)
    ensures RotateRight(RotateLeft(x, 12), 12) == x && RotateLeft(RotateRight(x, 12), 12) == x
  {
  }

  lemma RotateBy14(x: Word)
    ensures RotateRight(RotateLeft(x, 14), 14) == x && RotateLeft(RotateRight(x, 14), 14) == x
  {
  }

  lemma RotateBy15(x: Word)
    ensures RotateRight(RotateLeft(x, 15), 15) == x && RotateLeft(RotateRight(x, 15), 15) == x
  {
  }

  lemma RotateBy16(x: Word)
    ensures RotateRight(RotateLeft(x, 16), 16) == x && RotateLeft(RotateRight(x, 16), 16) == x
  {
  }

  lemma RotateBy17(x: Word)
    ensures RotateRight(RotateLeft(x, 17), 17) == x && RotateLeft(RotateRight(x, 17), 17) == x
  {
  }

  lemma RotateBy20(x: Word)
    ensures RotateRight(RotateLeft(x, 20), 20) == x && RotateLeft(RotateRight(x, 20), 20) == x
  {
  }

  lemma RotateBy21(x: Word)
    ensures RotateRight(RotateLeft(x, 21), 21) == x && RotateLeft(RotateRight(x, 21), 21) == x
  {
  }

  lemma RotateBy22(x: Word)
    ensures RotateRight(RotateLeft(x, 22), 22) == x && RotateLeft(RotateRight(x, 22), 22) == x
  {
  }

  lemma RotateBy23(x: Word)
    ensures RotateRight(RotateLeft(x, 23), 23) == x && RotateLeft(RotateRight(x, 23), 23) == x
  {
  }

  lemma RotationsCancel(x: Word, i: nat)
    ensures RotateRight(RotateLeft(x, Shift(i)), Shift(i)) == x
    ensures RotateLeft(RotateRight(x, Shift(i)), Shift(i)) == x
  {
    hide RotateLeft, RotateRight;
    RotateBy7(x);
    RotateBy12(x);
    RotateBy17(x);
    RotateBy22(x);
    RotateBy5(x);
    RotateBy9(x);
    RotateBy14(x);
    RotateBy20(x);
    RotateBy4(x);
    RotateBy11(x);
    RotateBy16(x);
    RotateBy23(x);
    RotateBy6(x);
    RotateBy10(x);
    RotateBy15(x);
    RotateBy21(x);
  }

  // Subtraction undoes addition, in both orders.

  function Minus(a: Word, b: Word): Word { a - b }

  lemma MinusPlus(a: Word, b: Word)
    ensures Minus(Plus(b, a), b) == a
  {
    assert Minus(b + a, b) == a;
  }

  lemma PlusMinus(a: Word, b: Word)
    ensures Plus(b, Minus(a, b)) == a
  {
    assert Plus(b, a - b) == a;
  }

  // ----- the 64 operations lose nothing

  /** The register value that operation `i` turned into `n`. */
  function Undo(f: Word, n: Word, b: Word, xk: Word, s: Amount, t: Word): Word
  {
    Minus(RotateRight(Minus(n, b), s), Addend(f, xk, t))
  }

  lemma SumOrder(a: Word, f: Word, xk: Word, t: Word)
    ensures Sum(a, f, xk, t) == Plus(Addend(f, xk, t), a) == Plus(a, Addend(f, xk, t))
  {
  }

  lemma OperationCancels(f: Word, a: Word, b: Word, xk: Word, i: nat, t: Word)
    ensures Undo(f, Operation(f, a, b, xk, Shift(i), t), b, xk, Shift(i), t) == a
    ensures Operation(f, Undo(f, a, b, xk, Shift(i), t), b, xk, Shift(i), t) == a
  {
    hide RotateLeft, RotateRight, Shift, Plus, Minus, Sum, Addend;
    var s, k := Shift(i), Addend(f, xk, t);
    SumOrder(a, f, xk, t);
    RotationsCancel(Plus(k, a), i);
    MinusPlus(RotateLeft(Plus(k, a), s), b);
    MinusPlus(a, k);
    var u := Undo(f, a, b, xk, s, t);
    SumOrder(u, f, xk, t);
    PlusMinus(RotateRight(Minus(a, b), s), k);
    RotationsCancel(Minus(a, b), i);
    PlusMinus(a, b);
  }

  function Unstep(i: nat, r: Registers, x: seq<Word>): Registers
    requires i < 64 && |x| == 16
  {
    var f := Mix(i, Registers(0, r.c, r.d, r.a));
    Registers(Undo(f, r.b, r.c, x[BlockIndex(i)], Shift(i), T(i)), r.c, r.d, r.a)
  }

  function Unsteps(k: nat, r: Registers, x: seq<Word>): Registers
    requires k <= 64 && |x| == 16
  {
    if k == 0 then r else Unsteps(k - 1, Unstep(k - 1, r, x), x)
  }

  lemma StepCancels(i: nat, r: Registers, x: seq<Word>)
    requires i < 64 && |x| == 16
    ensures Unstep(i, Step(i, r, x), x) == r && Step(i, Unstep(i, r, x), x) == r
  {
    hide Operation, Undo, Shift, T, BlockIndex, F, G, H, I;
    OperationCancels(Mix(i, r), r.a, r.b, x[BlockIndex(i)], i, T(i));
    OperationCancels(Mix(i, Registers(0, r.c, r.d, r.a)), r.b, r.c, x[BlockIndex(i)], i, T(i));
  }

  /** For every block, the operations before the final additions are a bijection on the four words. */
  lemma {:induction false} StepsAreBijective(k: nat, r: Registers, x: seq<Word>)
    requires k <= 64 && |x| == 16
    ensures Unsteps(k, Steps(k, r, x), x) == r && Steps(k, Unsteps(k, r, x), x) == r
  {
    hide Step, Unstep;
    if k > 0 {
      StepCancels(k - 1, Steps(k - 1, r, x), x);
      StepsAreBijective(k - 1, r, x);
      StepCancels(k - 1, r, x);
      StepsAreBijective(k - 1, Unstep(k - 1, r, x), x);
    }
  }
}
