// Words and bytes: the program's little-endian Encode and Decode.
module Md5Words {

  type Byte = bv8
  type Word = bv32

  function EncodeWord(w: Word): (b: seq<Byte>)
    ensures |b| == 4
  {
    [(w & 0xff) as Byte, ((w >> 8) & 0xff) as Byte, ((w >> 16) & 0xff) as Byte, ((w >> 24) & 0xff) as Byte]
  }

  function WordOf(b: Byte, c: Byte, d: Byte, e: Byte): Word
  {
    (b as Word) | ((c as Word) << 8) | ((d as Word) << 16) | ((e as Word) << 24)
  }

  function DecodeWord(b: seq<Byte>): Word
    requires |b| == 4
  {
    WordOf(b[0], b[1], b[2], b[3])
  }

  function EncodeWords(ws: seq<Word>): (b: seq<Byte>)
    ensures |b| == 4 * |ws|
  {
    if ws == [] then [] else EncodeWords(ws[..|ws| - 1]) + EncodeWord(ws[|ws| - 1])
  }

  function DecodeWords(b: seq<Byte>): (ws: seq<Word>)
    requires |b| % 4 == 0
    ensures |ws| == |b| / 4
  {
    if b == [] then [] else DecodeWords(b[..|b| - 4]) + [DecodeWord(b[|b| - 4..])]
  }

  lemma WordRoundTrip(w: Word)
    ensures DecodeWord(EncodeWord(w)) == w
  {
  }

  lemma FourBytes(b: Byte, c: Byte, d: Byte, e: Byte)
    ensures var w := WordOf(b, c, d, e);
      && (w & 0xff) as Byte == b && ((w >> 8) & 0xff) as Byte == c
      && ((w >> 16) & 0xff) as Byte == d && ((w >> 24) & 0xff) as Byte == e
  {
  }

  lemma BytesRoundTrip(b: seq<Byte>)
    requires |b| == 4
    ensures EncodeWord(DecodeWord(b)) == b
  {
    FourBytes(b[0], b[1], b[2], b[3]);
  }

  lemma DecodeOneMore(b: seq<Byte>, c: seq<Byte>)
    requires |b| % 4 == 0 && |c| == 4
    ensures DecodeWords(b + c) == DecodeWords(b) + [DecodeWord(c)]
  {
    hide DecodeWord;
    assert (b + c)[..|b + c| - 4] == b && (b + c)[|b + c| - 4..] == c;
  }

  lemma EncodeOneMore(ws: seq<Word>, w: Word)
    ensures EncodeWords(ws + [w]) == EncodeWords(ws) + EncodeWord(w)
  {
    hide EncodeWord;
    assert (ws + [w])[..|ws|] == ws;
  }

  /** Decoding inverts encoding, for any number of words. */
  lemma {:induction false} DecodeEncode(ws: seq<Word>)
    ensures DecodeWords(EncodeWords(ws)) == ws
  {
    hide EncodeWord, DecodeWord;
    if ws != [] {
      hide DecodeWords;
      var n := |ws| - 1;
      DecodeEncode(ws[..n]);
      WordRoundTrip(ws[n]);
      DecodeOneMore(EncodeWords(ws[..n]), EncodeWord(ws[n]));
    }
  }

  lemma LastWord(b: seq<Byte>)
    requires b != [] && |b| % 4 == 0
    ensures 4 <= |b| && |b[..|b| - 4]| % 4 == 0 && b == b[..|b| - 4] + b[|b| - 4..]
  {
  }

  /** Encoding inverts decoding, for every length that is a multiple of 4. */
  lemma {:induction false} EncodeDecode(b: seq<Byte>)
    requires |b| % 4 == 0
    ensures EncodeWords(DecodeWords(b)) == b
  {
    if b != [] {
      LastWord(b);
      hide *;
      var front, back := b[..|b| - 4], b[|b| - 4..];
      EncodeDecode(front);
      BytesRoundTrip(back);
      DecodeOneMore(front, back);
      EncodeOneMore(DecodeWords(front), DecodeWord(back));
    }
  }

  /** Before the end there is room for one more word. */
  lemma Room(i: nat, len: nat, n: nat)
    requires len % 4 == 0 && len / 4 <= n && 4 * i < len
    ensures i < n && 4 * i + 4 <= len
  {
  }

  /** Write `len` bytes of `input`, low-order byte of each word first. */
  method Encode(output: array<Byte>, input: seq<Word>, len: nat)
    requires len % 4 == 0 && len <= output.Length && len / 4 <= |input|
    modifies output
    ensures output[..len] == EncodeWords(input[..len / 4])
    ensures output[len..] == old(output[len..])
  {
    hide EncodeWord;
    var i, j := 0, 0;
    while j < len
      invariant 0 <= j <= len && j == 4 * i
      invariant output[..j] == EncodeWords(input[..i])
      invariant output[len..] == old(output[len..])
    {
      Room(i, len, |input|);
      ghost var done := output[..j];
      EncodeWordAt(output, j, input[i]);
      assert output[..j + 4] == done + EncodeWord(input[i]);
      assert input[..i + 1][..i] == input[..i];
      i, j := i + 1, j + 4;
    }
  }

  method EncodeWordAt(output: array<Byte>, j: nat, w: Word)
    requires j + 4 <= output.Length
    modifies output
    ensures output[..] == old(output[..j]) + EncodeWord(w) + old(output[j + 4..])
  {
    output[j] := (w & 0xff) as Byte;
    output[j + 1] := ((w >> 8) & 0xff) as Byte;
    output[j + 2] := ((w >> 16) & 0xff) as Byte;
    output[j + 3] := ((w >> 24) & 0xff) as Byte;
  }

  lemma OneMoreDecoded(before: seq<Word>, input: seq<Byte>, i: nat)
    requires i < |before| && 4 * i + 4 <= |input|
    ensures (DecodeWords(input[..4 * i]) + before[i..])[i := DecodeWord(input[4 * i..4 * i + 4])]
            == DecodeWords(input[..4 * i + 4]) + before[i + 1..]
  {
    hide DecodeWord, DecodeWords;
    DecodeOneMore(input[..4 * i], input[4 * i..4 * i + 4]);
    assert input[..4 * i + 4] == input[..4 * i] + input[4 * i..4 * i + 4];
  }

  /** What decoding `len` bytes leaves of an array that held `before`. */
  ghost predicate Decoded(now: seq<Word>, before: seq<Word>, input: seq<Byte>, len: nat)
  {
    && len % 4 == 0 && len <= |input| && len / 4 <= |before|
    && now == DecodeWords(input[..len]) + before[len / 4..]
  }

  lemma NothingDecoded(before: seq<Word>, input: seq<Byte>)
    ensures Decoded(before, before, input, 0)
  {
  }

  method DecodeWordAt(output: array<Word>, i: nat, input: seq<Byte>, ghost before: seq<Word>)
    requires i < |before| == output.Length && 4 * i + 4 <= |input|
    requires Decoded(output[..], before, input, 4 * i)
    modifies output
    ensures Decoded(output[..], before, input, 4 * i + 4)
  {
    hide WordOf, DecodeWords;
    var j := 4 * i;
    OneMoreDecoded(before, input, i);
    output[i] := WordOf(input[j], input[j + 1], input[j + 2], input[j + 3]);
  }

  /** Read `len` bytes of `input` into words; the rest of `output` stays. */
  method Decode(output: array<Word>, input: seq<Byte>, len: nat)
    requires len % 4 == 0 && len <= |input| && len / 4 <= output.Length
    modifies output
    ensures Decoded(output[..], old(output[..]), input, len)
  {
    ghost var before := output[..];
    var i, j := 0, 0;
    hide *;
    NothingDecoded(before, input);
    while j < len
      invariant 0 <= j <= len && j == 4 * i
      invariant Decoded(output[..], before, input, j)
    {
      Room(i, len, output.Length);
      DecodeWordAt(output, i, input, before);
      i, j := i + 1, j + 4;
    }
  }
}
