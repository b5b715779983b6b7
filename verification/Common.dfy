// Shared vocabulary: optional values, text comparison and the two-way split of a sequence.
module Common {

  datatype Option<+T> = None | Some(value: T)

  function Upper(c: char): char
  {
    if 'a' <= c <= 'z' then 'A' + (c - 'a') else c
  }

  /** Comparison that disregards case, as `cmp_no_case` does it. */
  predicate SameNoCase(s: string, t: string)
  {
    |s| == |t| && forall k :: 0 <= k < |s| ==> Upper(s[k]) == Upper(t[k])
  }

  /** Two characters that differ at most in the case of a letter. */
  predicate SameLetter(c: char, d: char)
  {
    c == d || ('a' <= c <= 'z' && d as int == c as int - 32) || ('A' <= c <= 'Z' && d as int == c as int + 32)
  }

  lemma SameNoCaseIff(s: string, t: string)
    ensures SameNoCase(s, t) <==> |s| == |t| && forall k :: 0 <= k < |s| ==> SameLetter(s[k], t[k])
  {
    assert forall c: char, d: char :: Upper(c) == Upper(d) <==> SameLetter(c, d);
  }

  /** `s` is a shuffle of `a` and `b`: every element of `s` goes to exactly one of them, and both
      keep the order of `s`. */
  ghost predicate Interleaves<T>(s: seq<T>, a: seq<T>, b: seq<T>)
  {
    if s == [] then a == [] && b == []
    else
      || (a != [] && a[0] == s[0] && Interleaves(s[1..], a[1..], b))
      || (b != [] && b[0] == s[0] && Interleaves(s[1..], a, b[1..]))
  }

  /** A shuffle can be extended at the front by a block that all goes left. */
  lemma {:induction false} InterleavesLeftBlock<T>(block: seq<T>, s: seq<T>, a: seq<T>, b: seq<T>)
    requires Interleaves(s, a, b)
    ensures Interleaves(block + s, block + a, b)
  {
    if block == [] {
      assert block + s == s && block + a == a;
    } else {
      InterleavesLeftBlock(block[1..], s, a, b);
      assert (block + s)[1..] == block[1..] + s;
      assert (block + a)[1..] == block[1..] + a;
    }
  }

  /** A shuffle in which everything goes right. */
  lemma {:induction false} InterleavesAllRight<T>(s: seq<T>)
    ensures Interleaves(s, [], s)
  {
    if s != [] {
      InterleavesAllRight(s[1..]);
    }
  }
}
