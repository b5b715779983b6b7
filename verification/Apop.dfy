// The APOP digest: cutting the timestamp out of the server's greeting and hashing it with the
// password (section 7 of RFC 1939).
module Apop {
  import opened Common
  import opened Md5Words
  import opened Md5

  const LESS: Byte := 0x3c
  const GREATER: Byte := 0x3e

  /** C strings as byte sequences without the closing zero. */
  type Bytes = seq<Byte>

  /** `t` stands at `k`, and it reaches from the first '<' to the first '>' after it. */
  predicate TimestampAt(greet: Bytes, t: Bytes, k: nat)
  {
    && 2 <= |t| && k + |t| <= |greet| && t == greet[k..k + |t|]
    && greet[k] == LESS && (forall j :: 0 <= j < k ==> greet[j] != LESS)
    && greet[k + |t| - 1] == GREATER && (forall j :: k <= j < k + |t| - 1 ==> greet[j] != GREATER)
  }

  ghost predicate IsTimestamp(greet: Bytes, t: Bytes)
  {
    exists k: nat :: TimestampAt(greet, t, k)
  }

  /** Position of the first `c` from `from` on, or the length. */
  method Index(s: Bytes, c: Byte, from: nat) returns (i: nat)
    requires from <= |s|
    ensures from <= i <= |s| && (i < |s| ==> s[i] == c)
    ensures forall j :: from <= j < i ==> s[j] != c
  {
    i := from;
    while i < |s| && s[i] != c
      invariant from <= i <= |s| && forall j :: from <= j < i ==> s[j] != c
    {
      i := i + 1;
    }
  }

  /** The timestamp of a greeting; none exactly when no '<' is followed by a '>'. */
  method ExtractTimestamp(greet: Bytes) returns (r: Option<Bytes>)
    ensures r.Some? ==> IsTimestamp(greet, r.value)
    ensures r.None? <==> forall i, j :: 0 <= i < j < |greet| ==> !(greet[i] == LESS && greet[j] == GREATER)
  {
    var ts := Index(greet, LESS, 0);
    if ts == |greet| {
      return None;
    }
    var p := Index(greet, GREATER, ts);
    if p == |greet| {
      return None;
    }
    var stamp := greet[ts..p + 1];
    assert TimestampAt(greet, stamp, ts);
    return Some(stamp);
  }

  /** A greeting has at most one timestamp. */
  lemma TimestampUnique(greet: Bytes, t: Bytes, u: Bytes)
    requires IsTimestamp(greet, t) && IsTimestamp(greet, u)
    ensures t == u
  {
    var k: nat :| TimestampAt(greet, t, k);
    var l: nat :| TimestampAt(greet, u, l);
    assert k == l;
  }

  // ----- printing the digest

  function HexDigit(n: Byte): (c: Byte)
    requires n < 16
  {
    if n < 10 then 0x30 + n else 0x57 + n
  }

  /** The two digits of the "%02x" format. */
  function HexByte(b: Byte): (h: Bytes)
    ensures |h| == 2
  {
    [HexDigit(b >> 4), HexDigit(b & 0x0f)]
  }

  function Hex(d: Bytes): (h: Bytes)
    ensures |h| == 2 * |d|
  {
    if d == [] then [] else Hex(d[..|d| - 1]) + HexByte(d[|d| - 1])
  }

  lemma HexByteInjective(b: Byte, c: Byte)
    requires HexByte(b) == HexByte(c)
    ensures b == c
  {
    assert HexByte(b)[0] == HexByte(c)[0] && HexByte(b)[1] == HexByte(c)[1];
  }

  /** Different digests print differently. */
  lemma {:induction false} HexInjective(d: Bytes, e: Bytes)
    requires Hex(d) == Hex(e)
    ensures d == e
  {
    hide HexByte;
    if d != [] {
      var n := |d| - 1;
      assert |e| == |d|;
      assert Hex(d)[..2 * n] == Hex(d[..n]) && Hex(d)[2 * n..] == HexByte(d[n]);
      assert Hex(e)[..2 * n] == Hex(e[..n]) && Hex(e)[2 * n..] == HexByte(e[n]);
      HexInjective(d[..n], e[..n]);
      HexByteInjective(d[n], e[n]);
    }
  }

  method Print(digest: array<Byte>) returns (hash: Bytes)
    ensures hash == Hex(digest[..])
  {
    hide HexByte;
    hash := [];
    var i := 0;
    while i < digest.Length
      invariant 0 <= i <= digest.Length && hash == Hex(digest[..i])
    {
      assert digest[..i + 1][..i] == digest[..i];
      hash := hash + HexByte(digest[i]);
      i := i + 1;
    }
    assert digest[..i] == digest[..];
  }

  /** The printed digest of the timestamp followed by the password. */
  method GetHash(stamp: Bytes, pass: Bytes) returns (hash: Bytes)
    requires Fits(0, |stamp|) && Fits(|stamp|, |pass|)
    ensures hash == Hex(Digest(stamp + pass)) && |hash| == 32
  {
    hide Digest, Hex, Context.Valid;
    var context := new Context();
    var digest := new Byte[16];
    context.Init();
    context.Update(stamp);
    context.Update(pass);
    assert context.message == stamp + pass;
    context.Final(digest);
    hash := Print(digest);
  }

  lemma TimestampHasBrackets(greet: Bytes, t: Bytes)
    requires IsTimestamp(greet, t)
    ensures |t| <= |greet|
    ensures exists i, j :: 0 <= i < j < |greet| && greet[i] == LESS && greet[j] == GREATER
  {
    var k: nat :| TimestampAt(greet, t, k);
  }

  /** What `login` sends as the digest; none when the server offers no timestamp. */
  method LoginDigest(greet: Bytes, pass: Bytes) returns (r: Option<Bytes>)
    requires forall t :: IsTimestamp(greet, t) ==> Fits(0, |t|) && Fits(|t|, |pass|)
    ensures forall t :: IsTimestamp(greet, t) ==> r == Some(Hex(Digest(t + pass)))
    ensures r.Some? ==> exists t :: IsTimestamp(greet, t)
  {
    hide Digest, Hex, IsTimestamp;
    r := None;
    var stamp := ExtractTimestamp(greet);
    if stamp.Some? {
      TimestampHasBrackets(greet, stamp.value);
      var hash := GetHash(stamp.value, pass);
      r := Some(hash);
    }
    forall t | IsTimestamp(greet, t)
      ensures r == Some(Hex(Digest(t + pass)))
    {
      TimestampHasBrackets(greet, t);
      TimestampUnique(greet, t, stamp.value);
    }
  }
}
