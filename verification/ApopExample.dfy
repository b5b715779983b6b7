// The worked example of section 7 of RFC 1939: the digest of the timestamp and the password given
// there, computed step by step from the definition of MD5, and what a login sends.
module ApopExample {
  import opened Md5Words
  import opened Md5Rounds
  import opened Md5Transform
  import opened Md5
  import opened Apop

  /** The text inside the timestamp: "1896.697170952@dbc.mtview.ca.us", in two parts. */
  const INSIDE1: Bytes :=
    [0x31, 0x38, 0x39, 0x36, 0x2e, 0x36, 0x39, 0x37, 0x31, 0x37, 0x30, 0x39, 0x35, 0x32, 0x40]
  const INSIDE2: Bytes :=
    [0x64, 0x62, 0x63, 0x2e, 0x6d, 0x74, 0x76, 0x69, 0x65, 0x77, 0x2e, 0x63, 0x61, 0x2e, 0x75, 0x73]

  const STAMP: Bytes := [0x3c] + (INSIDE1 + INSIDE2) + [0x3e]

  /** "tanstaaf" */
  const PASSWORD: Bytes := [0x74, 0x61, 0x6e, 0x73, 0x74, 0x61, 0x61, 0x66]

  /** "c4c9334bac560ecc979e58001b3e22fb" */
  const ANSWER: Bytes :=
    [0x63, 0x34, 0x63, 0x39, 0x33, 0x33, 0x34, 0x62]
    + [0x61, 0x63, 0x35, 0x36, 0x30, 0x65, 0x63, 0x63]
    + [0x39, 0x37, 0x39, 0x65, 0x35, 0x38, 0x30, 0x30]
    + [0x31, 0x62, 0x33, 0x65, 0x32, 0x32, 0x66, 0x62]

  /** The padded message as words. */
  const X: seq<Word> :=
    [0x3938313c, 0x39362e36, 0x30373137, 0x40323539,
     0x2e636264, 0x6976746d, 0x632e7765, 0x73752e61,
     0x6e61743e, 0x61617473, 0x00008066, 0x00000000,
     0x00000000, 0x00000000, 0x00000148, 0x00000000]

  // ----- the padded message

  lemma EncodeFour(a: Word, b: Word, c: Word, d: Word)
    ensures EncodeWords([a, b, c, d]) == EncodeWord(a) + EncodeWord(b) + EncodeWord(c) + EncodeWord(d)
  {
    hide EncodeWord, EncodeWords;
    EncodeOneMore([], a);
    EncodeOneMore([a], b);
    EncodeOneMore([a, b], c);
    EncodeOneMore([a, b, c], d);
    NoWords();
    assert [] + [a] == [a] && [a] + [b] == [a, b] && [a, b] + [c] == [a, b, c] && [a, b, c] + [d] == [a, b, c, d];
    assert [] + EncodeWord(a) == EncodeWord(a);
  }

  lemma NoWords()
    ensures EncodeWords([]) == []
  {
  }

  lemma {:induction false} EncodeAppend(a: seq<Word>, b: seq<Word>)
    ensures EncodeWords(a + b) == EncodeWords(a) + EncodeWords(b)
  {
    hide EncodeWord;
    if b == [] {
      assert a + b == a;
    } else {
      var n := |b| - 1;
      EncodeAppend(a, b[..n]);
      assert (a + b)[..|a + b| - 1] == a + b[..n];
      var x, y, z := EncodeWords(a), EncodeWords(b[..n]), EncodeWord(b[n]);
      assert (x + y) + z == x + (y + z);
    }
  }

  lemma Quarter1()
    ensures EncodeWords([0x3938313c, 0x39362e36, 0x30373137, 0x40323539])
            == [0x3c, 0x31, 0x38, 0x39, 0x36, 0x2e, 0x36, 0x39, 0x37, 0x31, 0x37, 0x30, 0x39, 0x35, 0x32, 0x40]
  {
    EncodeFour(0x3938313c, 0x39362e36, 0x30373137, 0x40323539);
  }

  lemma Quarter2()
    ensures EncodeWords([0x2e636264, 0x6976746d, 0x632e7765, 0x73752e61])
            == [0x64, 0x62, 0x63, 0x2e, 0x6d, 0x74, 0x76, 0x69, 0x65, 0x77, 0x2e, 0x63, 0x61, 0x2e, 0x75, 0x73]
  {
    EncodeFour(0x2e636264, 0x6976746d, 0x632e7765, 0x73752e61);
  }

  lemma Quarter3()
    ensures EncodeWords([0x6e61743e, 0x61617473, 0x00008066, 0x00000000])
            == [0x3e, 0x74, 0x61, 0x6e, 0x73, 0x74, 0x61, 0x61, 0x66, 0x80, 0x00, 0x00, 0x00, 0x00, 0x00, 0x00]
  {
    EncodeFour(0x6e61743e, 0x61617473, 0x00008066, 0x00000000);
  }

  lemma Quarter4()
    ensures EncodeWords([0x00000000, 0x00000000, 0x00000148, 0x00000000])
            == [0x00, 0x00, 0x00, 0x00, 0x00, 0x00, 0x00, 0x00, 0x48, 0x01, 0x00, 0x00, 0x00, 0x00, 0x00, 0x00]
  {
    EncodeFour(0x00000000, 0x00000000, 0x00000148, 0x00000000);
  }

  // The padded message as bytes, in four parts.
  const BLOCK1: Bytes :=
    [0x3c, 0x31, 0x38, 0x39, 0x36, 0x2e, 0x36, 0x39, 0x37, 0x31, 0x37, 0x30, 0x39, 0x35, 0x32, 0x40]
  const BLOCK2: Bytes :=
    [0x64, 0x62, 0x63, 0x2e, 0x6d, 0x74, 0x76, 0x69, 0x65, 0x77, 0x2e, 0x63, 0x61, 0x2e, 0x75, 0x73]
  const BLOCK3: Bytes :=
    [0x3e, 0x74, 0x61, 0x6e, 0x73, 0x74, 0x61, 0x61, 0x66, 0x80, 0x00, 0x00, 0x00, 0x00, 0x00, 0x00]
  const BLOCK4: Bytes :=
    [0x00, 0x00, 0x00, 0x00, 0x00, 0x00, 0x00, 0x00, 0x48, 0x01, 0x00, 0x00, 0x00, 0x00, 0x00, 0x00]

  const BLOCK: Bytes := BLOCK1 + BLOCK2 + BLOCK3 + BLOCK4

  lemma BlockIs()
    ensures DecodeWords(BLOCK) == X
  {
    hide EncodeWords, DecodeWords;
    var a, b, c, d: seq<Word> :=
      [0x3938313c, 0x39362e36, 0x30373137, 0x40323539], [0x2e636264, 0x6976746d, 0x632e7765, 0x73752e61],
      [0x6e61743e, 0x61617473, 0x00008066, 0x00000000], [0x00000000, 0x00000000, 0x00000148, 0x00000000];
    Quarter1();
    Quarter2();
    Quarter3();
    Quarter4();
    EncodeAppend(a, b);
    EncodeAppend(a + b, c);
    EncodeAppend(a + b + c, d);
    assert X == a + b + c + d;
    DecodeEncode(X);
  }

  lemma LengthIs328()
    ensures LengthBytes(8 * 41) == [0x48, 0x01, 0x00, 0x00, 0x00, 0x00, 0x00, 0x00]
  {
    var low, high: Word := 328, 0;
    assert (328 % TWO32) as Word == low && (328 / TWO32 % TWO32) as Word == high;
    NoWords();
    EncodeOneMore([], low);
    EncodeOneMore([low], high);
    assert [] + [low] == [low] && [low] + [high] == [low, high];
  }

  lemma PaddingIs()
    ensures Padding(41) == [0x80, 0, 0, 0, 0, 0, 0] + [0, 0, 0, 0, 0, 0, 0, 0]
  {
  }

  lemma Parts()
    ensures [0x3c] + INSIDE1 == BLOCK1 && INSIDE2 == BLOCK2
    ensures [0x3e] + PASSWORD + [0x80, 0, 0, 0, 0, 0, 0] == BLOCK3
    ensures [0, 0, 0, 0, 0, 0, 0, 0] + [0x48, 0x01, 0x00, 0x00, 0x00, 0x00, 0x00, 0x00] == BLOCK4
  {
  }

  lemma Regroup(a: Bytes, b: Bytes, c: Bytes, d: Bytes, e: Bytes, f: Bytes, g: Bytes, h: Bytes)
    ensures (a + (b + c) + d) + e + (f + g) + h == (a + b) + c + (d + e + f) + (g + h)
  {
  }

  lemma PaddedIs()
    ensures |STAMP + PASSWORD| == 41 && Padded(STAMP + PASSWORD) == BLOCK
  {
    LengthIs328();
    PaddingIs();
    Parts();
    hide LengthBytes, Padding;
    Regroup([0x3c], INSIDE1, INSIDE2, [0x3e], PASSWORD, [0x80, 0, 0, 0, 0, 0, 0], [0, 0, 0, 0, 0, 0, 0, 0],
            [0x48, 0x01, 0x00, 0x00, 0x00, 0x00, 0x00, 0x00]);
  }

  // ----- the 64 operations

  const START := Registers(0x67452301, 0xefcdab89, 0x98badcfe, 0x10325476)

  lemma Operations1()
    ensures Operation(F(0xefcdab89, 0x98badcfe, 0x10325476), 0x67452301, 0xefcdab89, 0x3938313c, 7, 0xd76aa478)
            == 0x41388511
    ensures Operation(F(0x41388511, 0xefcdab89, 0x98badcfe), 0x10325476, 0x41388511, 0x39362e36, 12, 0xe8c7b756)
            == 0xf27795cc
    ensures Operation(F(0xf27795cc, 0x41388511, 0xefcdab89), 0x98badcfe, 0xf27795cc, 0x30373137, 17, 0x242070db)
            == 0x4e9a0b62
    ensures Operation(F(0x4e9a0b62, 0xf27795cc, 0x41388511), 0xefcdab89, 0x4e9a0b62, 0x40323539, 22, 0xc1bdceee)
            == 0x8ee7476f
    ensures Operation(F(0x8ee7476f, 0x4e9a0b62, 0xf27795cc), 0x41388511, 0x8ee7476f, 0x2e636264, 7, 0xf57c0faf)
            == 0x642ccae0
    ensures Operation(F(0x642ccae0, 0x8ee7476f, 0x4e9a0b62), 0xf27795cc, 0x642ccae0, 0x6976746d, 12, 0x4787c62a)
            == 0x25692602
    ensures Operation(F(0x25692602, 0x642ccae0, 0x8ee7476f), 0x4e9a0b62, 0x25692602, 0x632e7765, 17, 0xa8304613)
            == 0x3df73750
    ensures Operation(F(0x3df73750, 0x25692602, 0x642ccae0), 0x8ee7476f, 0x3df73750, 0x73752e61, 22, 0xfd469501)
            == 0x9a507a8e
    ensures Operation(F(0x9a507a8e, 0x3df73750, 0x25692602), 0x642ccae0, 0x9a507a8e, 0x6e61743e, 7, 0x698098d8)
            == 0x5e5775ca
    ensures Operation(F(0x5e5775ca, 0x9a507a8e, 0x3df73750), 0x25692602, 0x5e5775ca, 0x61617473, 12, 0x8b44f7af)
            == 0x5ea35aaa
    ensures Operation(F(0x5ea35aaa, 0x5e5775ca, 0x9a507a8e), 0x3df73750, 0x5ea35aaa, 0x00008066, 17, 0xffff5bb1)
            == 0x668d933f
    ensures Operation(F(0x668d933f, 0x5ea35aaa, 0x5e5775ca), 0x9a507a8e, 0x668d933f, 0x00000000, 22, 0x895cd7be)
            == 0xb42e3371
    ensures Operation(F(0xb42e3371, 0x668d933f, 0x5ea35aaa), 0x5e5775ca, 0xb42e3371, 0x00000000, 7, 0x6b901122)
            == 0xee9f870d
    ensures Operation(F(0xee9f870d, 0xb42e3371, 0x668d933f), 0x5ea35aaa, 0xee9f870d, 0x00000000, 12, 0xfd987193)
            == 0x8c968711
    ensures Operation(F(0x8c968711, 0xee9f870d, 0xb42e3371), 0x668d933f, 0x8c968711, 0x00000148, 17, 0xa679438e)
            == 0xab841a9c
    ensures Operation(F(0xab841a9c, 0x8c968711, 0xee9f870d), 0xb42e3371, 0xab841a9c, 0x00000000, 22, 0x49b40821)
            == 0x5476bb0c
  {
  }

  lemma FirstValues()
    ensures Steps(8, START, X) == Registers(0x642ccae0, 0x9a507a8e, 0x3df73750, 0x25692602)
  {
    hide Operation, F, G, H, I, Steps, BlockIndex, Shift, T;
    NoSteps(START, X);
    Operations1();
    Constants1();
    FourSteps(0, START, X);
    assert Steps(4, START, X) == Registers(0x41388511, 0x8ee7476f, 0x4e9a0b62, 0xf27795cc);
    FourSteps(4, START, X);
    assert Steps(8, START, X) == Registers(0x642ccae0, 0x9a507a8e, 0x3df73750, 0x25692602);
  }

  lemma Values1()
    ensures Steps(16, START, X) == Registers(0xee9f870d, 0x5476bb0c, 0xab841a9c, 0x8c968711)
  {
    hide Operation, F, G, H, I, Steps, BlockIndex, Shift, T;
    FirstValues();
    Operations1();
    Constants1();
    FourSteps(8, START, X);
    assert Steps(12, START, X) == Registers(0x5e5775ca, 0xb42e3371, 0x668d933f, 0x5ea35aaa);
    FourSteps(12, START, X);
    assert Steps(16, START, X) == Registers(0xee9f870d, 0x5476bb0c, 0xab841a9c, 0x8c968711);
  }

  lemma Operations2()
    ensures Operation(G(0x5476bb0c, 0xab841a9c, 0x8c968711), 0xee9f870d, 0x5476bb0c, 0x39362e36, 5, 0xf61e2562)
            == 0xf5c58134
    ensures Operation(G(0xf5c58134, 0x5476bb0c, 0xab841a9c), 0x8c968711, 0xf5c58134, 0x632e7765, 9, 0xc040b340)
            == 0xee6b167f
    ensures Operation(G(0xee6b167f, 0xf5c58134, 0x5476bb0c), 0xab841a9c, 0xee6b167f, 0x00000000, 14, 0x265e5a51)
            == 0x50358470
    ensures Operation(G(0x50358470, 0xee6b167f, 0xf5c58134), 0x5476bb0c, 0x50358470, 0x3938313c, 20, 0xe9b6c7aa)
            == 0xf7129dc4
    ensures Operation(G(0xf7129dc4, 0x50358470, 0xee6b167f), 0xf5c58134, 0xf7129dc4, 0x6976746d, 5, 0xd62f105d)
            == 0x6745e609
    ensures Operation(G(0x6745e609, 0xf7129dc4, 0x50358470), 0xee6b167f, 0x6745e609, 0x00008066, 9, 0x02441453)
            == 0xd5d75fb8
    ensures Operation(G(0xd5d75fb8, 0x6745e609, 0xf7129dc4), 0x50358470, 0xd5d75fb8, 0x00000000, 14, 0xd8a1e681)
            == 0x90761f43
    ensures Operation(G(0x90761f43, 0xd5d75fb8, 0x6745e609), 0xf7129dc4, 0x90761f43, 0x2e636264, 20, 0xe7d3fbc8)
            == 0x4a900144
    ensures Operation(G(0x4a900144, 0x90761f43, 0xd5d75fb8), 0x6745e609, 0x4a900144, 0x61617473, 5, 0x21e1cde6)
            == 0xb1b535e9
    ensures Operation(G(0xb1b535e9, 0x4a900144, 0x90761f43), 0xd5d75fb8, 0xb1b535e9, 0x00000148, 9, 0xc33707d6)
            == 0x36b16cd0
    ensures Operation(G(0x36b16cd0, 0xb1b535e9, 0x4a900144), 0x90761f43, 0x36b16cd0, 0x40323539, 14, 0xf4d50d87)
            == 0xdc6c8b1c
    ensures Operation(G(0xdc6c8b1c, 0x36b16cd0, 0xb1b535e9), 0x4a900144, 0xdc6c8b1c, 0x6e61743e, 20, 0x455a14ed)
            == 0x14e5d219
    ensures Operation(G(0x14e5d219, 0xdc6c8b1c, 0x36b16cd0), 0xb1b535e9, 0x14e5d219, 0x00000000, 5, 0xa9e3e905)
            == 0x25c21360
    ensures Operation(G(0x25c21360, 0x14e5d219, 0xdc6c8b1c), 0x36b16cd0, 0x25c21360, 0x30373137, 9, 0xfcefa3f8)
            == 0x58ec1431
    ensures Operation(G(0x58ec1431, 0x25c21360, 0x14e5d219), 0xdc6c8b1c, 0x58ec1431, 0x73752e61, 14, 0x676f02d9)
            == 0x0c5e0e7e
    ensures Operation(G(0x0c5e0e7e, 0x58ec1431, 0x25c21360), 0x14e5d219, 0x0c5e0e7e, 0x00000000, 20, 0x8d2a4c8a)
            == 0x5dadf660
  {
  }

  lemma Values2()
    ensures Steps(32, START, X) == Registers(0x25c21360, 0x5dadf660, 0x0c5e0e7e, 0x58ec1431)
  {
    hide Operation, F, G, H, I, Steps, BlockIndex, Shift, T;
    Values1();
    Operations2();
    Constants2();
    FourSteps(16, START, X);
    assert Steps(20, START, X) == Registers(0xf5c58134, 0xf7129dc4, 0x50358470, 0xee6b167f);
    FourSteps(20, START, X);
    assert Steps(24, START, X) == Registers(0x6745e609, 0x4a900144, 0x90761f43, 0xd5d75fb8);
    FourSteps(24, START, X);
    assert Steps(28, START, X) == Registers(0xb1b535e9, 0x14e5d219, 0xdc6c8b1c, 0x36b16cd0);
    FourSteps(28, START, X);
    assert Steps(32, START, X) == Registers(0x25c21360, 0x5dadf660, 0x0c5e0e7e, 0x58ec1431);
  }

  lemma Operations3()
    ensures Operation(H(0x5dadf660, 0x0c5e0e7e, 0x58ec1431), 0x25c21360, 0x5dadf660, 0x6976746d, 4, 0xfffa3942)
            == 0xe2d8ca49
    ensures Operation(H(0xe2d8ca49, 0x5dadf660, 0x0c5e0e7e), 0x58ec1431, 0xe2d8ca49, 0x6e61743e, 11, 0x8771f681)
            == 0x38630258
    ensures Operation(H(0x38630258, 0xe2d8ca49, 0x5dadf660), 0x0c5e0e7e, 0x38630258, 0x00000000, 16, 0x6d9d6122)
            == 0xe6740369
    ensures Operation(H(0xe6740369, 0x38630258, 0xe2d8ca49), 0x5dadf660, 0xe6740369, 0x00000148, 23, 0xfde5380c)
            == 0x7cc034e6
    ensures Operation(H(0x7cc034e6, 0xe6740369, 0x38630258), 0xe2d8ca49, 0x7cc034e6, 0x39362e36, 4, 0xa4beea44)
            == 0xb711be8c
    ensures Operation(H(0xb711be8c, 0x7cc034e6, 0xe6740369), 0x38630258, 0xb711be8c, 0x2e636264, 11, 0x4bdecfa9)
            == 0x0cfd058e
    ensures Operation(H(0x0cfd058e, 0xb711be8c, 0x7cc034e6), 0xe6740369, 0x0cfd058e, 0x73752e61, 16, 0xf6bb4b60)
            == 0x1a0b1d5f
    ensures Operation(H(0x1a0b1d5f, 0x0cfd058e, 0xb711be8c), 0x7cc034e6, 0x1a0b1d5f, 0x00008066, 23, 0xbebfbc70)
            == 0x26f9d16b
    ensures Operation(H(0x26f9d16b, 0x1a0b1d5f, 0x0cfd058e), 0xb711be8c, 0x26f9d16b, 0x00000000, 4, 0x289b7ec6)
            == 0x22ca422b
    ensures Operation(H(0x22ca422b, 0x26f9d16b, 0x1a0b1d5f), 0x0cfd058e, 0x22ca422b, 0x3938313c, 11, 0xeaa127fa)
            == 0x9a315ca3
    ensures Operation(H(0x9a315ca3, 0x22ca422b, 0x26f9d16b), 0x1a0b1d5f, 0x9a315ca3, 0x40323539, 16, 0xd4ef3085)
            == 0xed3229d2
    ensures Operation(H(0xed3229d2, 0x9a315ca3, 0x22ca422b), 0x26f9d16b, 0xed3229d2, 0x632e7765, 23, 0x04881d05)
            == 0x852466a0
    ensures Operation(H(0x852466a0, 0xed3229d2, 0x9a315ca3), 0x22ca422b, 0x852466a0, 0x61617473, 4, 0xd9d4d039)
            == 0x879e1125
    ensures Operation(H(0x879e1125, 0x852466a0, 0xed3229d2), 0x9a315ca3, 0x879e1125, 0x00000000, 11, 0xe6db99e5)
            == 0x32450ca9
    ensures Operation(H(0x32450ca9, 0x879e1125, 0x852466a0), 0xed3229d2, 0x32450ca9, 0x00000000, 16, 0x1fa27cf8)
            == 0x543b4a7d
    ensures Operation(H(0x543b4a7d, 0x32450ca9, 0x879e1125), 0x852466a0, 0x543b4a7d, 0x30373137, 23, 0xc4ac5665)
            == 0x6ae93ea0
  {
  }

  lemma Values3()
    ensures Steps(48, START, X) == Registers(0x879e1125, 0x6ae93ea0, 0x543b4a7d, 0x32450ca9)
  {
    hide Operation, F, G, H, I, Steps, BlockIndex, Shift, T;
    Values2();
    Operations3();
    Constants3();
    FourSteps(32, START, X);
    assert Steps(36, START, X) == Registers(0xe2d8ca49, 0x7cc034e6, 0xe6740369, 0x38630258);
    FourSteps(36, START, X);
    assert Steps(40, START, X) == Registers(0xb711be8c, 0x26f9d16b, 0x1a0b1d5f, 0x0cfd058e);
    FourSteps(40, START, X);
    assert Steps(44, START, X) == Registers(0x22ca422b, 0x852466a0, 0xed3229d2, 0x9a315ca3);
    FourSteps(44, START, X);
    assert Steps(48, START, X) == Registers(0x879e1125, 0x6ae93ea0, 0x543b4a7d, 0x32450ca9);
  }

  lemma Operations4()
    ensures Operation(I(0x6ae93ea0, 0x543b4a7d, 0x32450ca9), 0x879e1125, 0x6ae93ea0, 0x3938313c, 6, 0xf4292244)
            == 0x9aefcabc
    ensures Operation(I(0x9aefcabc, 0x6ae93ea0, 0x543b4a7d), 0x32450ca9, 0x9aefcabc, 0x73752e61, 10, 0x432aff97)
            == 0x4adec9a3
    ensures Operation(I(0x4adec9a3, 0x9aefcabc, 0x6ae93ea0), 0x543b4a7d, 0x4adec9a3, 0x00000148, 15, 0xab9423a7)
            == 0x84366c23
    ensures Operation(I(0x84366c23, 0x4adec9a3, 0x9aefcabc), 0x6ae93ea0, 0x84366c23, 0x6976746d, 21, 0xfc93a039)
            == 0x850687a4
    ensures Operation(I(0x850687a4, 0x84366c23, 0x4adec9a3), 0x9aefcabc, 0x850687a4, 0x00000000, 6, 0x655b59c3)
            == 0xdc469f30
    ensures Operation(I(0xdc469f30, 0x850687a4, 0x84366c23), 0x4adec9a3, 0xdc469f30, 0x40323539, 10, 0x8f0ccc92)
            == 0x77d5b983
    ensures Operation(I(0x77d5b983, 0xdc469f30, 0x850687a4), 0x84366c23, 0x77d5b983, 0x00008066, 15, 0xffeff47d)
            == 0x9bce4d74
    ensures Operation(I(0x9bce4d74, 0x77d5b983, 0xdc469f30), 0x850687a4, 0x9bce4d74, 0x39362e36, 21, 0x85845dd1)
            == 0xa0b04af1
    ensures Operation(I(0xa0b04af1, 0x9bce4d74, 0x77d5b983), 0xdc469f30, 0xa0b04af1, 0x6e61743e, 6, 0x6fa87e4f)
            == 0x11d59cac
    ensures Operation(I(0x11d59cac, 0xa0b04af1, 0x9bce4d74), 0x77d5b983, 0x11d59cac, 0x00000000, 10, 0xfe2ce6e0)
            == 0x3428a1d9
    ensures Operation(I(0x3428a1d9, 0x11d59cac, 0xa0b04af1), 0x9bce4d74, 0x3428a1d9, 0x632e7765, 15, 0xa3014314)
            == 0x4cd8aa35
    ensures Operation(I(0x4cd8aa35, 0x3428a1d9, 0x11d59cac), 0xa0b04af1, 0x4cd8aa35, 0x00000000, 21, 0x4e0811a1)
            == 0x34f1db89
    ensures Operation(I(0x34f1db89, 0x4cd8aa35, 0x3428a1d9), 0x11d59cac, 0x34f1db89, 0x2e636264, 6, 0xf7537e82)
            == 0xe3eea6c3
    ensures Operation(I(0xe3eea6c3, 0x34f1db89, 0x4cd8aa35), 0x3428a1d9, 0xe3eea6c3, 0x00000000, 10, 0xbd3af235)
            == 0xeaefe9a5
    ensures Operation(I(0xeaefe9a5, 0xe3eea6c3, 0x34f1db89), 0x4cd8aa35, 0xeaefe9a5, 0x30373137, 15, 0x2ad7d2bb)
            == 0x679dc199
    ensures Operation(I(0x679dc199, 0xeaefe9a5, 0xe3eea6c3), 0x34f1db89, 0x679dc199, 0x61617473, 21, 0xeb86d391)
            == 0xdc40ab23
  {
  }

  lemma Values4()
    ensures Steps(64, START, X) == Registers(0xe3eea6c3, 0xdc40ab23, 0x679dc199, 0xeaefe9a5)
  {
    hide Operation, F, G, H, I, Steps, BlockIndex, Shift, T;
    Values3();
    Operations4();
    Constants4();
    FourSteps(48, START, X);
    assert Steps(52, START, X) == Registers(0x9aefcabc, 0x850687a4, 0x84366c23, 0x4adec9a3);
    FourSteps(52, START, X);
    assert Steps(56, START, X) == Registers(0xdc469f30, 0xa0b04af1, 0x9bce4d74, 0x77d5b983);
    FourSteps(56, START, X);
    assert Steps(60, START, X) == Registers(0x11d59cac, 0x34f1db89, 0x4cd8aa35, 0x3428a1d9);
    FourSteps(60, START, X);
    assert Steps(64, START, X) == Registers(0xe3eea6c3, 0xdc40ab23, 0x679dc199, 0xeaefe9a5);
  }

  // ----- the digest

  lemma FinalWords()
    ensures Compress(INITIAL, BLOCK) == [0x4b33c9c4, 0xcc0e56ac, 0x00589e97, 0xfb223e1b]
  {
    hide Steps, DecodeWords;
    BlockIs();
    Values4();
  }

  lemma WordsIs()
    ensures Absorb(INITIAL, BLOCK) == [0x4b33c9c4, 0xcc0e56ac, 0x00589e97, 0xfb223e1b]
  {
    hide Compress;
    FinalWords();
    assert BLOCK[..64] == BLOCK && BLOCK[64..] == [];
  }

  lemma DigestIs()
    ensures Digest(STAMP + PASSWORD)
            == [0xc4, 0xc9, 0x33, 0x4b, 0xac, 0x56, 0x0e, 0xcc, 0x97, 0x9e, 0x58, 0x00, 0x1b, 0x3e, 0x22, 0xfb]
  {
    hide Absorb, Padded, EncodeWords;
    PaddedIs();
    WordsIs();
    EncodeFour(0x4b33c9c4, 0xcc0e56ac, 0x00589e97, 0xfb223e1b);
  }

  lemma {:induction false} HexAppend(a: Bytes, b: Bytes)
    ensures Hex(a + b) == Hex(a) + Hex(b)
  {
    hide HexByte;
    if b == [] {
      assert a + b == a;
    } else {
      var n := |b| - 1;
      HexAppend(a, b[..n]);
      assert (a + b)[..|a + b| - 1] == a + b[..n];
      var x, y, z := Hex(a), Hex(b[..n]), HexByte(b[n]);
      assert (x + y) + z == x + (y + z);
    }
  }

  lemma HexFour(a: Byte, b: Byte, c: Byte, d: Byte)
    ensures Hex([a, b, c, d]) == HexByte(a) + HexByte(b) + HexByte(c) + HexByte(d)
  {
    hide HexByte, Hex;
    HexOne(a);
    HexOne(b);
    HexOne(c);
    HexOne(d);
    HexAppend([a], [b]);
    HexAppend([a, b], [c]);
    HexAppend([a, b, c], [d]);
    assert [a] + [b] == [a, b] && [a, b] + [c] == [a, b, c] && [a, b, c] + [d] == [a, b, c, d];
  }

  lemma HexOne(a: Byte)
    ensures Hex([a]) == HexByte(a)
  {
    hide HexByte;
    assert [a][..0] == [] && Hex([]) == [] && [] + HexByte(a) == HexByte(a);
  }

  lemma Hex1()
    ensures Hex([0xc4, 0xc9, 0x33, 0x4b]) == [0x63, 0x34, 0x63, 0x39, 0x33, 0x33, 0x34, 0x62]
  {
    HexFour(0xc4, 0xc9, 0x33, 0x4b);
  }

  lemma Hex2()
    ensures Hex([0xac, 0x56, 0x0e, 0xcc]) == [0x61, 0x63, 0x35, 0x36, 0x30, 0x65, 0x63, 0x63]
  {
    HexFour(0xac, 0x56, 0x0e, 0xcc);
  }

  lemma Hex3()
    ensures Hex([0x97, 0x9e, 0x58, 0x00]) == [0x39, 0x37, 0x39, 0x65, 0x35, 0x38, 0x30, 0x30]
  {
    HexFour(0x97, 0x9e, 0x58, 0x00);
  }

  lemma Hex4()
    ensures Hex([0x1b, 0x3e, 0x22, 0xfb]) == [0x31, 0x62, 0x33, 0x65, 0x32, 0x32, 0x66, 0x62]
  {
    HexFour(0x1b, 0x3e, 0x22, 0xfb);
  }

  /** The printed digest is the one of the standard. */
  lemma AnswerIs()
    ensures Hex(Digest(STAMP + PASSWORD)) == ANSWER
  {
    hide Digest, Hex;
    DigestIs();
    Hex1();
    Hex2();
    Hex3();
    Hex4();
    var a, b, c, d: Bytes :=
      [0xc4, 0xc9, 0x33, 0x4b], [0xac, 0x56, 0x0e, 0xcc], [0x97, 0x9e, 0x58, 0x00], [0x1b, 0x3e, 0x22, 0xfb];
    HexAppend(a, b);
    HexAppend(a + b, c);
    HexAppend(a + b + c, d);
    assert Digest(STAMP + PASSWORD) == a + b + c + d;
  }

  /** A greeting's timestamp: from the first '<' to the first '>' behind it. */
  lemma TimestampIs(before: Bytes, inside: Bytes, behind: Bytes)
    requires 0x3c !in before && 0x3e !in inside
    ensures IsTimestamp(before + ([0x3c] + inside + [0x3e]) + behind, [0x3c] + inside + [0x3e])
  {
    var t := [0x3c] + inside + [0x3e];
    var greet := before + t + behind;
    assert greet[|before|..|before| + |t|] == t;
    assert forall j :: 0 <= j < |before| ==> greet[j] == before[j];
    assert forall j :: 0 <= j < |t| ==> greet[|before| + j] == t[j];
    assert forall j :: |before| <= j < |before| + |t| - 1 ==> greet[j] == t[j - |before|];
    assert TimestampAt(greet, t, |before|);
  }

  /** For every greeting with that timestamp, the login sends that answer. */
  lemma ExampleLogin(before: Bytes, behind: Bytes)
    requires 0x3c !in before
    ensures IsTimestamp(before + STAMP + behind, STAMP) && Hex(Digest(STAMP + PASSWORD)) == ANSWER
  {
    AnswerIs();
    NoEndInside();
    hide IsTimestamp;
    TimestampIs(before, INSIDE1 + INSIDE2, behind);
  }

  lemma NoEndInside()
    ensures 0x3e !in INSIDE1 + INSIDE2
  {
    assert 0x3e !in INSIDE1 && 0x3e !in INSIDE2;
  }
}
