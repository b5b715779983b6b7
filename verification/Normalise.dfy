// Subject normalisation: an in-place erasing loop whose index sometimes steps back, proved to be a
// filter followed by squeezing white space.
module Normalise {

  // ----- character classes of the C locale

  predicate IsAlpha(c: char)
  {
    'a' <= c <= 'z' || 'A' <= c <= 'Z'
  }

  predicate IsDigit(c: char)
  {
    '0' <= c <= '9'
  }

  predicate IsSpace(c: char)
  {
    c == ' ' || 9 <= c as int <= 13
  }

  predicate Kept(c: char)
  {
    IsAlpha(c) || IsDigit(c) || IsSpace(c) || c == '@'
  }

  // ----- the meaning of normalisation

  /** Only the characters that are kept. */
  function Keep(s: string): string
  {
    if s == "" then "" else (if Kept(s[0]) then [s[0]] else "") + Keep(s[1..])
  }

  predicate TwoSpacesAt(s: string, k: nat)
  {
    k + 1 < |s| && IsSpace(s[k]) && IsSpace(s[k + 1])
  }

  /** Of every run of white space, only the last character. */
  function Squeeze(s: string): string
  {
    if s == "" then "" else (if TwoSpacesAt(s, 0) then "" else [s[0]]) + Squeeze(s[1..])
  }

  function Normalised(s: string): string
  {
    Squeeze(Keep(s))
  }

  /** Nothing left to normalise. */
  predicate IsNormal(s: string)
  {
    forall k :: 0 <= k < |s| ==> Kept(s[k]) && !TwoSpacesAt(s, k)
  }

  // ----- properties of the meaning

  lemma {:induction false} KeepAppend(a: string, b: string)
    ensures Keep(a + b) == Keep(a) + Keep(b)
  {
    hide Kept;
    if a == "" {
      assert a + b == b;
    } else {
      assert (a + b)[1..] == a[1..] + b;
      KeepAppend(a[1..], b);
      var first := if Kept(a[0]) then [a[0]] else "";
      assert first + (Keep(a[1..]) + Keep(b)) == first + Keep(a[1..]) + Keep(b);
    }
  }

  /** The first of two adjacent spaces makes no difference, whatever stands before. */
  lemma {:induction false} SqueezeForgets(a: string, x: char, y: char, b: string)
    requires IsSpace(x) && IsSpace(y)
    ensures Squeeze(a + [x, y] + b) == Squeeze(a + [y] + b)
  {
    var s, t := a + [x, y] + b, a + [y] + b;
    if a == "" {
      assert s[1..] == t;
    } else {
      assert s[1..] == a[1..] + [x, y] + b && t[1..] == a[1..] + [y] + b;
      SqueezeForgets(a[1..], x, y, b);
      assert TwoSpacesAt(s, 0) == TwoSpacesAt(t, 0);
    }
  }

  lemma {:induction false} NormalIsFixed(s: string)
    requires IsNormal(s)
    ensures Keep(s) == s && Squeeze(s) == s
  {
    if s != "" {
      forall k | 0 <= k < |s[1..]|
        ensures Kept(s[1..][k]) && !TwoSpacesAt(s[1..], k)
      {
        assert Kept(s[k + 1]) && !TwoSpacesAt(s, k + 1);
      }
      NormalIsFixed(s[1..]);
    }
  }

  lemma {:induction false} KeepKeeps(s: string)
    ensures forall k :: 0 <= k < |Keep(s)| ==> Kept(Keep(s)[k])
  {
    if s != "" {
      KeepKeeps(s[1..]);
    }
  }

  /** Squeezing leaves no two adjacent spaces, keeps the last character and adds no character. */
  lemma {:induction false} SqueezeSqueezes(s: string)
    requires forall k :: 0 <= k < |s| ==> Kept(s[k])
    ensures IsNormal(Squeeze(s))
    ensures Squeeze(s) == "" <==> s == ""
    ensures s != "" ==> IsSpace(Squeeze(s)[0]) == IsSpace(s[0])
  {
    if s != "" {
      SqueezeSqueezes(s[1..]);
      var t := Squeeze(s[1..]);
      if !TwoSpacesAt(s, 0) {
        forall k | 0 <= k < |[s[0]] + t|
          ensures Kept(([s[0]] + t)[k]) && !TwoSpacesAt([s[0]] + t, k)
        {
          if k > 0 {
            assert Kept(t[k - 1]) && !TwoSpacesAt(t, k - 1);
          }
        }
      }
    }
  }

  /** A normalised subject is normal, and exactly the normal ones stay as they are; so normalising
      twice is normalising once. */
  lemma NormalisedIsNormal(s: string)
    ensures IsNormal(Normalised(s))
    ensures Normalised(s) == s <==> IsNormal(s)
    ensures Normalised(Normalised(s)) == Normalised(s)
  {
    KeepKeeps(s);
    SqueezeSqueezes(Keep(s));
    NormalIsFixed(Normalised(s));
    if IsNormal(s) {
      NormalIsFixed(s);
    }
  }

  predicate Alphanumeric(c: char)
  {
    'a' <= c <= 'z' || 'A' <= c <= 'Z' || '0' <= c <= '9'
  }

  predicate Blank(c: char)
  {
    c in {' ', '\t', '\n', '\r', 11 as char, 12 as char}
  }

  /** The characters that carry the words. */
  function Words(s: string): string
  {
    if s == "" then "" else (if Alphanumeric(s[0]) || s[0] == '@' then [s[0]] else "") + Words(s[1..])
  }

  lemma {:induction false} WordsOfKeep(s: string)
    ensures Words(Keep(s)) == Words(s)
  {
    if s != "" {
      WordsOfKeep(s[1..]);
      if Kept(s[0]) {
        assert Keep(s)[1..] == Keep(s[1..]);
      } else {
        assert Keep(s) == Keep(s[1..]);
      }
    }
  }

  lemma {:induction false} WordsOfSqueeze(s: string)
    ensures Words(Squeeze(s)) == Words(s)
  {
    if s != "" {
      WordsOfSqueeze(s[1..]);
      if TwoSpacesAt(s, 0) {
        assert Squeeze(s) == Squeeze(s[1..]);
      } else {
        assert Squeeze(s)[1..] == Squeeze(s[1..]);
      }
    }
  }

  /** No letter, digit or '@' is lost, added or moved. */
  lemma NormalisedKeepsWords(s: string)
    ensures Words(Normalised(s)) == Words(s)
  {
    WordsOfKeep(s);
    WordsOfSqueeze(Keep(s));
  }

  // ----- the manual's promise of a purely alphanumeric subject

  predicate AllAlphanumeric(s: string)
  {
    forall c :: c in s ==> Alphanumeric(c)
  }

  lemma {:induction false} KeepMembers(s: string)
    ensures forall c :: c in Keep(s) <==> c in s && Kept(c)
  {
    if s != "" {
      KeepMembers(s[1..]);
      assert forall c :: c in s <==> c == s[0] || c in s[1..];
    }
  }

  /** Squeezing loses no other character and never the last space. */
  lemma {:induction false} SqueezeMembers(s: string)
    ensures forall c :: c in Squeeze(s) ==> c in s
    ensures forall c :: c in s ==> c in Squeeze(s) || (IsSpace(c) && exists d :: d in Squeeze(s) && IsSpace(d))
  {
    if s != "" {
      SqueezeMembers(s[1..]);
      assert forall c :: c in s <==> c == s[0] || c in s[1..];
      if TwoSpacesAt(s, 0) {
        assert s[1] in s[1..];
      }
    }
  }

  /** A normalised string "consists only of alpha-numeric characters": exactly the subjects without white space and '@'
      are normalised to that. */
  lemma AlphanumericIff(s: string)
    ensures AllAlphanumeric(Normalised(s)) <==> forall c :: c in s ==> !Blank(c) && c != '@'
  {
    KeepMembers(s);
    SqueezeMembers(Keep(s));
    if c :| c in s && (Blank(c) || c == '@') {
      assert c in Keep(s);
    }
  }

  /** A concrete subject that keeps its blank. */
  lemma BlankStays()
    ensures Normalised("a b") == "a b" && !AllAlphanumeric("a b")
  {
    NormalisedIsNormal("a b");
    assert "a b"[1] in "a b";
  }

  // ----- which white space stays

  lemma {:induction false} SqueezeSpaces(space: string, b: string)
    requires space != "" && (forall k :: 0 <= k < |space| ==> IsSpace(space[k])) && (b != "" ==> !IsSpace(b[0]))
    ensures Squeeze(space + b) == [space[|space| - 1]] + Squeeze(b)
  {
    assert (space + b)[1..] == space[1..] + b;
    if |space| > 1 {
      SqueezeSpaces(space[1..], b);
    } else {
      assert space[1..] + b == b;
    }
  }

  lemma SqueezeStep(s: string)
    requires s != ""
    ensures Squeeze(s) == (if TwoSpacesAt(s, 0) then "" else [s[0]]) + Squeeze(s[1..])
  {
  }

  lemma SameSpacesAt(a: string, t: string)
    requires a != "" && !IsSpace(a[|a| - 1])
    ensures TwoSpacesAt(a + t, 0) == TwoSpacesAt(a, 0)
  {
    hide IsSpace;
  }

  lemma {:induction false} SqueezeFront(a: string, t: string)
    requires a != "" ==> !IsSpace(a[|a| - 1])
    ensures Squeeze(a + t) == Squeeze(a) + Squeeze(t)
  {
    if a == "" {
      assert a + t == t;
    } else {
      hide Squeeze;
      SqueezeFront(a[1..], t);
      assert (a + t)[1..] == a[1..] + t;
      SqueezeStep(a);
      SqueezeStep(a + t);
      SameSpacesAt(a, t);
      var first, x, y := if TwoSpacesAt(a, 0) then "" else [a[0]], Squeeze(a[1..]), Squeeze(t);
      assert first + (x + y) == (first + x) + y;
    }
  }

  lemma KeepRun(a: string, space: string, b: string)
    requires forall k :: 0 <= k < |space| ==> IsSpace(space[k])
    ensures Keep(a + (space + b)) == Keep(a) + (space + Keep(b))
  {
    hide Keep, IsSpace;
    KeepAppend(a, space + b);
    KeepAppend(space, b);
    KeepsSpaces(space);
  }

  lemma SqueezeRun(a: string, space: string, b: string)
    requires space != "" && forall k :: 0 <= k < |space| ==> IsSpace(space[k])
    requires (a != "" ==> !IsSpace(a[|a| - 1])) && (b != "" ==> !IsSpace(b[0]))
    ensures Squeeze(a + (space + b)) == Squeeze(a) + [space[|space| - 1]] + Squeeze(b)
  {
    hide Squeeze, IsSpace;
    SqueezeFront(a, space + b);
    SqueezeSpaces(space, b);
    var x, y, z := Squeeze(a), [space[|space| - 1]], Squeeze(b);
    assert x + (y + z) == x + y + z;
  }

  lemma KeepStarts(b: string)
    requires b != "" && Kept(b[0])
    ensures Keep(b) != "" && Keep(b)[0] == b[0]
  {
  }

  lemma BlanksAreSpaces(space: string)
    requires forall k :: 0 <= k < |space| ==> Blank(space[k])
    ensures forall k :: 0 <= k < |space| ==> IsSpace(space[k])
  {
  }

  lemma WordCharacter(c: char)
    requires Alphanumeric(c)
    ensures Kept(c) && !IsSpace(c)
  {
  }

  /** Of a run of white space between two words, exactly the last character stays. */
  lemma RunKeepsLast(a: string, space: string, b: string)
    requires a != "" && Alphanumeric(a[|a| - 1]) && b != "" && Alphanumeric(b[0])
    requires space != "" && forall k :: 0 <= k < |space| ==> Blank(space[k])
    ensures Normalised(a + (space + b)) == Normalised(a) + [space[|space| - 1]] + Normalised(b)
  {
    hide Squeeze, Keep, IsSpace, Kept, Blank, Alphanumeric;
    BlanksAreSpaces(space);
    WordCharacter(a[|a| - 1]);
    WordCharacter(b[0]);
    KeepRun(a, space, b);
    KeepEnds(a);
    KeepStarts(b);
    SqueezeRun(Keep(a), space, Keep(b));
  }

  lemma {:induction false} KeepsSpaces(space: string)
    requires forall k :: 0 <= k < |space| ==> IsSpace(space[k])
    ensures Keep(space) == space
  {
    if space != "" {
      KeepsSpaces(space[1..]);
    }
  }

  lemma {:induction false} KeepEnds(a: string)
    requires a != "" && Kept(a[|a| - 1])
    ensures Keep(a) != "" && Keep(a)[|Keep(a)| - 1] == a[|a| - 1]
  {
    if |a| > 1 {
      KeepEnds(a[1..]);
    }
  }

  // ----- the program's loop

  /** Reading one past the end of a C++ string gives the null character. */
  function At(s: string, i: nat): char
    requires i <= |s|
  {
    if i < |s| then s[i] else '\0'
  }

  function Erase(s: string, i: nat): string
    requires i < |s|
  {
    s[..i] + s[i + 1..]
  }

  lemma EraseSpace(s: string, i: nat)
    requires TwoSpacesAt(s, i)
    ensures Normalised(Erase(s, i)) == Normalised(s)
  {
    hide Squeeze;
    var a, x, y, b := s[..i], s[i], s[i + 1], s[i + 2..];
    assert s == a + ([x, y] + b) && Erase(s, i) == a + ([y] + b);
    KeepAppend(a, [x, y] + b);
    KeepAppend(a, [y] + b);
    assert ([x, y] + b)[1..] == [y] + b && ([y] + b)[1..] == b;
    assert Keep(s) == Keep(a) + [x, y] + Keep(b) && Keep(Erase(s, i)) == Keep(a) + [y] + Keep(b);
    SqueezeForgets(Keep(a), x, y, Keep(b));
  }

  lemma EraseOther(s: string, i: nat)
    requires i < |s| && !Kept(s[i])
    ensures Normalised(Erase(s, i)) == Normalised(s)
  {
    assert s == s[..i] + s[i..] && s[i..][1..] == s[i + 1..];
    KeepAppend(s[..i], s[i..]);
    KeepAppend(s[..i], s[i + 1..]);
    assert Keep(s[i..]) == Keep(s[i + 1..]);
  }

  /** What is behind the index is clean. */
  predicate CleanBefore(s: string, i: nat)
  {
    i <= |s| && forall k :: 0 <= k < i ==> Kept(s[k]) && !TwoSpacesAt(s, k)
  }

  method DropSpaces(subject: string, i: nat) returns (s: string)
    requires i < |subject| && CleanBefore(subject, i)
    ensures i < |s| <= |subject| && CleanBefore(s, i) && !TwoSpacesAt(s, i)
    ensures Normalised(s) == Normalised(subject)
  {
    hide Normalised;
    s := subject;
    while IsSpace(At(s, i)) && IsSpace(At(s, i + 1)) && i < |s|
      invariant i < |s| <= |subject| && CleanBefore(s, i)
      invariant Normalised(s) == Normalised(subject)
      decreases |s|
    {
      EraseSpace(s, i);
      s := Erase(s, i);
    }
  }

  method NormaliseSubject(subject: string) returns (s: string)
    ensures s == Normalised(subject)
  {
    hide Normalised;
    s := subject;
    var i: nat := 0;
    while i < |s|
      invariant CleanBefore(s, i)
      invariant Normalised(s) == Normalised(subject)
      decreases 2 * |s| - i
    {
      s := DropSpaces(s, i);
      if !IsAlpha(s[i]) && !IsSpace(s[i]) && s[i] != '@' && !IsDigit(s[i]) {
        EraseOther(s, i);
        s := Erase(s, i);
        i := i - if i > 0 then 1 else 0;
      } else {
        i := i + 1;
      }
    }
    NormalisedIsNormal(s);
  }
}
