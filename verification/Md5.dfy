// MD5 in streaming form, proved to be the one-shot digest of RFC 1321 for every way of splitting
// the message.
module Md5 {
  import opened Md5Words
  import opened Md5Rounds
  import opened Md5Transform

  const TWO32: nat := 0x1_0000_0000

  /** The initial register values (section 3.3). */
  const INITIAL: seq<Word> := [0x67452301, 0xefcdab89, 0x98badcfe, 0x10325476]

  // ----- the digest of a whole message (sections 3.1, 3.2, 3.4 and 3.5)

  /** Process the complete 64-byte blocks of `m`. */
  function Absorb(state: seq<Word>, m: seq<Byte>): (s: seq<Word>)
    requires |state| == 4
    ensures |s| == 4
    decreases |m|
  {
    if |m| < 64 then state else Absorb(Compress(state, m[..64]), m[64..])
  }

  /** One byte 0x80 and as many zero bytes as bring the length to 56 modulo 64. */
  function Padding(n: nat): (p: seq<Byte>)
    ensures (n + |p|) % 64 == 56 && 1 <= |p| <= 64
    ensures p[0] == 0x80 && forall k :: 1 <= k < |p| ==> p[k] == 0
  {
    [0x80] + seq((55 - n) % 64, _ => 0)
  }

  /** The low 64 bits of a bit count as two words, low-order word first. */
  function LengthBytes(bits: nat): (b: seq<Byte>)
    ensures |b| == 8
  {
    EncodeWords([(bits % TWO32) as Word, (bits / TWO32 % TWO32) as Word])
  }

  function Padded(m: seq<Byte>): seq<Byte>
  {
    m + Padding(|m|) + LengthBytes(8 * |m|)
  }

  function Digest(m: seq<Byte>): (d: seq<Byte>)
    ensures |d| == 16
  {
    EncodeWords(Absorb(INITIAL, Padded(m)))
  }

  /** The registers start as the bytes 01 23 45 67, 89 ab cd ef, fe dc ba 98, 76 54 32 10. */
  lemma InitialBytes()
    ensures INITIAL == [DecodeWord([0x01, 0x23, 0x45, 0x67]), DecodeWord([0x89, 0xab, 0xcd, 0xef]),
                        DecodeWord([0xfe, 0xdc, 0xba, 0x98]), DecodeWord([0x76, 0x54, 0x32, 0x10])]
  {
  }

  /** The length bytes are the low and the high word of the bit count modulo 2^64. */
  lemma LengthIs(bits: nat)
    ensures DecodeWords(LengthBytes(bits))
            == [(bits % 0x1_0000_0000) as Word, (bits / 0x1_0000_0000 % 0x1_0000_0000) as Word]
  {
    hide DecodeWords, EncodeWords;
    DecodeEncode([(bits % TWO32) as Word, (bits / TWO32 % TWO32) as Word]);
  }

  // ----- splitting the message

  lemma {:induction false} AbsorbAppend(state: seq<Word>, a: seq<Byte>, b: seq<Byte>)
    requires |state| == 4 && |a| % 64 == 0
    ensures Absorb(state, a + b) == Absorb(Absorb(state, a), b)
    decreases |a|
  {
    hide Compress;
    if a == [] {
      assert a + b == b;
    } else {
      assert (a + b)[..64] == a[..64] && (a + b)[64..] == a[64..] + b;
      AbsorbAppend(Compress(state, a[..64]), a[64..], b);
    }
  }

  lemma AbsorbBlock(state: seq<Word>, a: seq<Byte>, block: seq<Byte>)
    requires |state| == 4 && |a| % 64 == 0 && |block| == 64
    ensures Absorb(state, a + block) == Compress(Absorb(state, a), block)
  {
    hide Compress;
    AbsorbAppend(state, a, block);
    assert block[..64] == block;
    assert Absorb(Compress(Absorb(state, a), block), block[64..]) == Compress(Absorb(state, a), block);
  }

  function Complete(m: seq<Byte>): (c: seq<Byte>)
    ensures |c| % 64 == 0
  {
    m[..|m| - |m| % 64]
  }

  function Leftover(m: seq<Byte>): (t: seq<Byte>)
    ensures |t| == |m| % 64
    ensures Complete(m) + t == m
  {
    m[|m| - |m| % 64..]
  }

  lemma NothingAbsorbed(state: seq<Word>)
    requires |state| == 4
    ensures Absorb(state, []) == state
  {
    hide Compress;
  }

  lemma NoLeftover()
    ensures Leftover([]) == []
  {
  }

  lemma NoBits()
    ensures Low(0) == 0 && High(0) == 0
  {
  }

  lemma LeftoverIs(a: seq<Byte>, b: seq<Byte>)
    requires |a| % 64 == 0 && |b| < 64
    ensures |a + b| % 64 == |b| && Leftover(a + b) == b && Complete(a + b) == a
  {
    SameIndex(|a| + |b|, |b|, |a| / 64);
  }

  lemma AbsorbLeftover(state: seq<Word>, a: seq<Byte>, b: seq<Byte>)
    requires |state| == 4 && |a| % 64 == 0 && |b| < 64
    ensures Absorb(state, a + b) == Absorb(state, a)
  {
    AbsorbAppend(state, a, b);
    hide Compress;
  }

  /** Filling up the leftover to a block. */
  lemma FirstBlock(state: seq<Word>, m: seq<Byte>, p: seq<Byte>)
    requires |state| == 4 && |m| % 64 + |p| == 64
    ensures |m + p| % 64 == 0
    ensures Absorb(state, m + p) == Compress(Absorb(state, m), Leftover(m) + p)
  {
    hide Compress, Absorb, Complete, Leftover;
    var a, b := Complete(m), Leftover(m);
    AbsorbLeftover(state, a, b);
    AbsorbBlock(state, a, b + p);
    assert m + p == a + (b + p);
    SameIndex(|m + p|, 0, |m| / 64 + 1);
  }

  lemma NextBlock(state: seq<Word>, m: seq<Byte>, input: seq<Byte>, i: nat)
    requires |state| == 4 && i + 64 <= |input| && (|m| + i) % 64 == 0
    ensures (|m| + i + 64) % 64 == 0
    ensures Absorb(state, m + input[..i + 64]) == Compress(Absorb(state, m + input[..i]), input[i..i + 64])
  {
    hide Compress, Absorb;
    SameIndex(|m| + i + 64, |m| + i, 1);
    var a := m + input[..i];
    assert |a| == |m| + i;
    AbsorbBlock(state, a, input[i..i + 64]);
    assert m + input[..i + 64] == a + input[i..i + 64];
  }

  /** Nothing but whole blocks up to `i`, and less than a block after it. */
  lemma LastPart(state: seq<Word>, m: seq<Byte>, input: seq<Byte>, i: nat)
    requires |state| == 4 && i <= |input| < i + 64 && (|m| + i) % 64 == 0
    ensures Absorb(state, m + input) == Absorb(state, m + input[..i])
    ensures Leftover(m + input) == input[i..] && |m + input| % 64 == |input| - i
  {
    hide Absorb, Leftover;
    var a, b := m + input[..i], input[i..];
    assert m + input == a + b;
    AbsorbLeftover(state, a, b);
    LeftoverIs(a, b);
  }

  lemma SmallPart(state: seq<Word>, m: seq<Byte>, input: seq<Byte>)
    requires |state| == 4 && |m| % 64 + |input| < 64
    ensures Absorb(state, m + input) == Absorb(state, m)
    ensures Leftover(m + input) == Leftover(m) + input && |m + input| % 64 == |m| % 64 + |input|
  {
    hide Absorb, Leftover, Complete;
    var a, b := Complete(m), Leftover(m);
    assert m + input == a + (b + input);
    AbsorbLeftover(state, a, b);
    AbsorbLeftover(state, a, b + input);
    LeftoverIs(a, b + input);
  }

  lemma SameIndex(a: nat, b: nat, q: nat)
    requires a == b + 64 * q
    ensures a % 64 == b % 64
  {
  }

  // ----- the bound of the block loop

  /** Where the block loop stops when nothing wraps. */
  function LastBlockEnd(n: nat, len: nat): (i: nat)
    requires 64 - n % 64 <= len
    ensures i <= len < i + 64 && (n + i) % 64 == 0
  {
    SameIndex(n + (len - (n + len) % 64), 0, (n + len) / 64);
    len - (n + len) % 64
  }

  /** `len` more bytes after `n` are processed without the loop's bound `i + 63` wrapping. */
  predicate Fits(n: nat, len: nat)
  {
    len < TWO32 && len <= TWO32 - 64 + (n + len) % 64
  }

  /** With 32-bit indices the loop stops where it should exactly for lengths that fit; otherwise it
      goes on past the end of the input. */
  lemma FitsIff(n: nat, len: nat)
    requires 64 - n % 64 <= len < TWO32
    ensures Fits(n, len) <==> (LastBlockEnd(n, len) + 63) % TWO32 >= len
  {
  }

  /** Up to the last stop the bound does not wrap. */
  lemma BoundDoesNotWrap(n: nat, len: nat, i: nat)
    requires Fits(n, len) && 64 - n % 64 <= len && i <= len && (n + i) % 64 == 0
    ensures (i + 63) % TWO32 == i + 63
  {
    var last := LastBlockEnd(n, len);
    var q, p := (n + last) / 64, (n + i) / 64;
    assert n + last == 64 * q && n + i == 64 * p;
    assert i < last + 64;
    assert p <= q;
  }

  /** Every length up to 2^32 - 64 fits. */
  lemma SmallFits(n: nat, len: nat)
    requires len <= TWO32 - 64
    ensures Fits(n, len)
  {
  }

  // ----- the bit counter

  function Low(n: nat): nat { 8 * n % TWO32 }

  function High(n: nat): nat { 8 * n / TWO32 % TWO32 }

  /** The two words together are eight times the number of bytes modulo 2^64. */
  lemma CounterIs(n: nat)
    ensures Low(n) < 0x1_0000_0000 && High(n) < 0x1_0000_0000
    ensures High(n) * 0x1_0000_0000 + Low(n) == 8 * n % 0x1_0000_0000_0000_0000
  {
    var bits, high := 8 * n, 8 * n / TWO32;
    assert bits == high * TWO32 + Low(n) && high == high / TWO32 * TWO32 + High(n);
    WideRemainder(bits, high / TWO32, High(n) * TWO32 + Low(n));
  }

  lemma WideRemainder(a: nat, q: nat, r: nat)
    requires a == q * 0x1_0000_0000_0000_0000 + r && r < 0x1_0000_0000_0000_0000
    ensures a % 0x1_0000_0000_0000_0000 == r
  {
  }

  lemma LowGivesIndex(n: nat)
    ensures Low(n) / 8 % 64 == n % 64
  {
    var q, r := n / 0x2000_0000, n % 0x2000_0000;
    DivMod(8 * n, q, 8 * r);
    SameIndex(n, r, 0x80_0000 * q);
  }

  /** The carry of the hand-made 64-bit addition: the low word wraps exactly when the sum is below
      what was added. */
  lemma CountStep(n: nat, len: nat)
    requires len < TWO32
    ensures var added := 8 * len % TWO32; var low := (Low(n) + added) % TWO32;
      && low == Low(n + len)
      && (High(n) + (if low < added then 1 else 0) + len / 0x2000_0000) % TWO32 == High(n + len)
  {
    var added, h := 8 * len % TWO32, 8 * len / TWO32;
    var l, g := Low(n), 8 * n / TWO32;
    assert h == len / 0x2000_0000;
    var carry := if l + added >= TWO32 then 1 else 0;
    var low := l + added - carry * TWO32;
    assert 8 * (n + len) == (g + h + carry) * TWO32 + low;
    DivMod(8 * (n + len), g + h + carry, low);
    DivMod(l + added, carry, low);
    DivMod(g, g / TWO32, g % TWO32);
    DivMod(g % TWO32 + carry + h, (g % TWO32 + carry + h) / TWO32, (g % TWO32 + carry + h) % TWO32);
    SameRemainder(g + h + carry, g % TWO32 + carry + h, g / TWO32);
  }

  lemma DivMod(a: nat, q: nat, r: nat)
    requires a == q * TWO32 + r && r < TWO32
    ensures a / TWO32 == q && a % TWO32 == r
  {
  }

  lemma SameRemainder(a: nat, b: nat, q: nat)
    requires a == b + q * TWO32
    ensures a % TWO32 == b % TWO32
  {
    DivMod(a, b / TWO32 + q, b % TWO32);
  }

  lemma RemainderFirst(a: nat, b: nat)
    ensures (a % TWO32 + b) % TWO32 == (a + b) % TWO32
  {
    SameRemainder(a + b, a % TWO32 + b, a / TWO32);
  }

  // ----- the context

  const PADDING: seq<Byte> := [0x80] + seq(63, _ => 0)

  lemma PaddingTable(n: nat, padLen: nat)
    requires padLen == if n % 64 < 56 then 56 - n % 64 else 120 - n % 64
    ensures padLen <= 64 && PADDING[..padLen] == Padding(n)
  {
    assert padLen == 1 + (55 - n) % 64;
  }

  method CopyInto(output: array<Byte>, at: nat, input: seq<Byte>)
    requires at + |input| <= output.Length
    modifies output
    ensures output[..] == old(output[..at]) + input + old(output[at + |input|..])
  {
    var i := 0;
    while i < |input|
      invariant 0 <= i <= |input|
      invariant forall k :: at <= k < at + i ==> output[k] == input[k - at]
      invariant forall k :: 0 <= k < at || at + i <= k < output.Length ==> output[k] == old(output[k])
    {
      output[at + i] := input[i];
      i := i + 1;
    }
  }

  class Context {
    const state: array<Word>
    const buffer: array<Byte>
    var low: nat
    var high: nat
    ghost var message: seq<Byte>

    constructor ()
      ensures fresh(state) && fresh(buffer) && state.Length == 4 && buffer.Length == 64
    {
      state := new Word[4];
      buffer := new Byte[64];
    }

    /** The state has absorbed the complete blocks of `message`, and the buffer starts with the rest. */
    ghost predicate Absorbed()
      reads this, state, buffer
    {
      && state.Length == 4 && buffer.Length == 64
      && state[..] == Absorb(INITIAL, message)
      && buffer[..|message| % 64] == Leftover(message)
    }

    /** The context stands for `message`; the counters hold its bit length modulo 2^64. */
    ghost predicate Valid()
      reads this, state, buffer
    {
      Absorbed() && low == Low(|message|) && high == High(|message|)
    }

    method Load(a: Word, b: Word, c: Word, d: Word)
      requires state.Length == 4
      modifies state
      ensures state[..] == [a, b, c, d]
    {
      state[0], state[1], state[2], state[3] := a, b, c, d;
    }

    method Init()
      requires state.Length == 4 && buffer.Length == 64
      modifies this, state
      ensures Valid() && message == []
    {
      NothingAbsorbed(INITIAL);
      NoLeftover();
      NoBits();
      hide Absorb, Leftover, Low, High;
      low, high := 0, 0;
      Load(0x67452301, 0xefcdab89, 0x98badcfe, 0x10325476);
      message := [];
    }

    /** Add to the bit count of `n` bytes that of `inputLen` more, the way 32-bit words do it. */
    method Count(inputLen: nat, ghost n: nat)
      requires inputLen < TWO32 && low == Low(n) && high == High(n)
      modifies this`low, this`high
      ensures low == Low(n + inputLen) && high == High(n + inputLen)
    {
      hide Low, High;
      CountStep(n, inputLen);
      var added := 8 * inputLen % TWO32;
      low := (low + added) % TWO32;
      RemainderFirst(high + 1, inputLen / 0x2000_0000);
      if low < added {
        high := (high + 1) % TWO32;
      }
      high := (high + inputLen / 0x2000_0000) % TWO32;
    }

    /** Absorb every complete block of `input` behind the first `from` bytes. */
    method Blocks(input: seq<Byte>, from: nat) returns (i: nat)
      requires state.Length == 4 && from <= |input| && (|message| + from) % 64 == 0
      requires Fits(|message|, |input|) && 64 - |message| % 64 <= |input|
      requires state[..] == Absorb(INITIAL, message + input[..from])
      modifies state
      ensures from <= i <= |input| < i + 64 && (|message| + i) % 64 == 0
      ensures state[..] == Absorb(INITIAL, message + input[..i])
    {
      hide Absorb, Compress;
      i := from;
      BoundDoesNotWrap(|message|, |input|, i);
      while (i + 63) % TWO32 < |input|
        invariant (i + 63) % TWO32 == i + 63
        invariant from <= i <= |input| && (|message| + i) % 64 == 0
        invariant state[..] == Absorb(INITIAL, message + input[..i])
      {
        NextBlock(INITIAL, message, input, i);
        Transform(state, input[i..i + 64]);
        i := i + 64;
        BoundDoesNotWrap(|message|, |input|, i);
      }
    }

    /** Complete the buffered block with the start of `input`, then transform block after block. */
    method FillAndTransform(input: seq<Byte>, index: nat) returns (i: nat)
      requires Absorbed() && Fits(|message|, |input|)
      requires index == |message| % 64 && 64 - index <= |input|
      modifies state, buffer
      ensures i <= |input| && Leftover(message + input) == input[i..] && |message + input| % 64 == |input| - i
      ensures state[..] == Absorb(INITIAL, message + input)
    {
      hide Absorb, Compress, Leftover;
      var partLen := 64 - index;
      CopyInto(buffer, index, input[..partLen]);
      assert buffer[..] == Leftover(message) + input[..partLen];
      FirstBlock(INITIAL, message, input[..partLen]);
      Transform(state, buffer[..]);
      i := Blocks(input, partLen);
      LastPart(INITIAL, message, input, i);
    }

    /** Process more of the message. */
    method Update(input: seq<Byte>)
      requires Valid() && Fits(|message|, |input|)
      modifies this`low, this`high, this`message, state, buffer
      ensures Valid() && message == old(message) + input
    {
      assert |input| < TWO32;
      LowGivesIndex(|message|);
      hide Absorb, Leftover, Low, High, Fits;
      var index := low / 8 % 64;
      Count(|input|, |message|);
      Feed(input, index);
      message := message + input;
    }

    /** Transform the blocks that are complete now and buffer what remains. */
    method Feed(input: seq<Byte>, index: nat)
      requires Absorbed() && Fits(|message|, |input|) && index == |message| % 64
      modifies state, buffer
      ensures state[..] == Absorb(INITIAL, message + input)
      ensures buffer[..|message + input| % 64] == Leftover(message + input)
    {
      hide Absorb, Leftover, Fits;
      if |input| >= 64 - index {
        var i := FillAndTransform(input, index);
        BufferRest(input, i, 0);
      } else {
        SmallPart(INITIAL, message, input);
        BufferRest(input, 0, index);
      }
    }

    /** Buffer the remaining input behind `index` bytes. */
    method BufferRest(input: seq<Byte>, i: nat, index: nat)
      requires buffer.Length == 64 && i <= |input| && index + (|input| - i) == |message + input| % 64
      requires buffer[..index] + input[i..] == Leftover(message + input)
      modifies buffer
      ensures buffer[..|message + input| % 64] == Leftover(message + input)
    {
      hide Leftover;
      CopyInto(buffer, index, input[i..]);
    }

    /** Save the number of bits. */
    method CountBytes() returns (bits: seq<Byte>)
      requires low == Low(|message|) && high == High(|message|)
      ensures bits == LengthBytes(8 * |message|)
    {
      hide EncodeWords;
      var count := [low as Word, high as Word];
      assert count[..2] == count;
      var b := new Byte[8];
      Encode(b, count, 8);
      assert b[..] == b[..8];
      bits := b[..];
    }

    /** The number of padding bytes. */
    method PadLength() returns (padLen: nat)
      requires low == Low(|message|)
      ensures padLen <= 64 && PADDING[..padLen] == Padding(|message|)
    {
      hide Low, Padding;
      LowGivesIndex(|message|);
      var index := low / 8 % 64;
      padLen := if index < 56 then 56 - index else 120 - index;
      PaddingTable(|message|, padLen);
    }

    /** Pad, append the length, write the digest and wipe the context. */
    method Final(digest: array<Byte>)
      requires Valid() && digest.Length == 16 && digest != buffer
      modifies this`low, this`high, this`message, state, buffer, digest
      ensures digest[..] == Digest(old(message))
      ensures low == high == 0 && state[..] == [0, 0, 0, 0] && buffer[..] == seq(64, _ => 0)
    {
      hide Absorb, Leftover, Padding, LengthBytes, EncodeWords, Low, High;
      var bits := CountBytes();
      var padLen := PadLength();
      ghost var m := message;
      SmallFits(|message|, padLen);
      Update(PADDING[..padLen]);
      SmallFits(|message|, 8);
      Update(bits);
      assert message == Padded(m);
      ghost var words := state[..];
      assert words[..4] == words;
      Encode(digest, state[..], 16);
      assert digest[..16] == digest[..];
      Wipe();
    }

    method Wipe()
      requires state.Length == 4 && buffer.Length == 64
      modifies this`low, this`high, state, buffer
      ensures low == high == 0 && state[..] == [0, 0, 0, 0] && buffer[..] == seq(64, _ => 0)
    {
      low, high := 0, 0;
      Load(0, 0, 0, 0);
      forall k | 0 <= k < buffer.Length {
        buffer[k] := 0;
      }
    }
  }

  function Flatten(chunks: seq<seq<Byte>>): seq<Byte>
  {
    if chunks == [] then [] else Flatten(chunks[..|chunks| - 1]) + chunks[|chunks| - 1]
  }

  /** Any way of splitting a message into updates gives the digest of the whole message. */
  method HashChunks(chunks: seq<seq<Byte>>) returns (d: seq<Byte>)
    requires forall k :: 0 <= k < |chunks| ==> Fits(|Flatten(chunks[..k])|, |chunks[k]|)
    ensures d == Digest(Flatten(chunks))
  {
    hide Digest, Context.Valid;
    var context := new Context();
    context.Init();
    var i := 0;
    while i < |chunks|
      invariant 0 <= i <= |chunks|
      invariant context.Valid() && context.message == Flatten(chunks[..i])
      invariant fresh(context) && fresh(context.state) && fresh(context.buffer)
    {
      context.Update(chunks[i]);
      assert chunks[..i + 1][..i] == chunks[..i];
      i := i + 1;
    }
    assert chunks[..i] == chunks;
    var digest := new Byte[16];
    context.Final(digest);
    d := digest[..];
  }
}
