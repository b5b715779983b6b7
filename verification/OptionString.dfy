// Option strings as they are documented: a letter stands for an option without argument, followed by
// one colon for a required and by two for an optional argument, and a leading colon changes the answer
// to a missing argument. Reading a written option string gives back what was written.
module OptionString {
  import opened Common
  import opened LongOptions
  import opened OptionScan

  datatype Letter = Letter(c: char, kind: Kind)

  /** No letter twice, none is a colon. */
  ghost predicate GoodLetters(letters: seq<Letter>)
  {
    && (forall l :: l in letters ==> l.c != ':' && l.kind != Invalid)
    && forall i, j :: 0 <= i < j < |letters| ==> letters[i].c != letters[j].c
  }

  function SpellLetter(l: Letter): string
  {
    match l.kind
    case Required => [l.c, ':']
    case Optional => [l.c, ':', ':']
    case _ => [l.c]
  }

  function SpellLetters(letters: seq<Letter>): string
  {
    if letters == [] then "" else SpellLetter(letters[0]) + SpellLetters(letters[1..])
  }

  function Spell(quiet: bool, letters: seq<Letter>): string
  {
    (if quiet then ":" else "") + SpellLetters(letters)
  }

  predicate Listed(letters: seq<Letter>, c: char)
  {
    exists l :: l in letters && l.c == c
  }

  // ----- reading

  lemma IndexBehind(front: string, s: string, c: char)
    requires c !in front
    ensures IndexOf(front + s, c) == |front| + IndexOf(s, c)
  {
    var i := IndexOf(s, c);
    IndexFound(s, c);
    IndexOfIs(front + s, c, |front| + i);
  }

  lemma {:induction false} IndexFound(s: string, c: char)
    ensures var i := IndexOf(s, c); (i < |s| ==> s[i] == c) && forall j :: 0 <= j < i ==> s[j] != c
  {
    if s != "" && s[0] != c {
      IndexFound(s[1..], c);
      assert forall j :: 1 <= j < |s| ==> s[j] == s[1..][j - 1];
    }
  }

  /** Text without the letter in front makes no difference. */
  lemma KindBehind(front: string, s: string, c: char)
    requires c !in front
    ensures KindOf(front + s, c) == KindOf(s, c)
  {
    IndexBehind(front, s, c);
  }

  lemma NoColonFirst(letters: seq<Letter>)
    requires forall l :: l in letters ==> l.c != ':'
    ensures SpellLetters(letters) != "" ==> SpellLetters(letters)[0] != ':'
  {
  }

  lemma FirstKind(l: Letter, rest: string)
    requires l.c != ':' && l.kind != Invalid && (rest != "" ==> rest[0] != ':')
    ensures KindOf(SpellLetter(l) + rest, l.c) == l.kind
  {
    var s := SpellLetter(l) + rest;
    IndexOfIs(s, l.c, 0);
    assert s[|SpellLetter(l)|..] == rest;
    assert rest != "" ==> s[|SpellLetter(l)|] == rest[0];
  }

  lemma {:induction false} LettersRead(letters: seq<Letter>, c: char)
    requires GoodLetters(letters) && c != ':'
    ensures forall l :: l in letters && l.c == c ==> KindOf(SpellLetters(letters), c) == l.kind
    ensures !Listed(letters, c) ==> KindOf(SpellLetters(letters), c) == Invalid
  {
    if letters != [] {
      var l, more := letters[0], letters[1..];
      assert GoodLetters(more) by {
        assert forall i :: 0 <= i < |more| ==> more[i] == letters[i + 1];
      }
      assert forall m :: m in letters <==> m == l || m in more;
      assert forall m :: m in more ==> m.c != l.c by {
        forall m | m in more
          ensures m.c != l.c
        {
          var i :| 0 <= i < |more| && more[i] == m;
          assert letters[i + 1].c == m.c;
        }
      }
      LettersRead(more, c);
      NoColonFirst(more);
      if c == l.c {
        FirstKind(l, SpellLetters(more));
      } else {
        KindBehind(SpellLetter(l), SpellLetters(more), c);
      }
    }
  }

  /** A written option string is read as what it lists: each letter has its kind, and every other
      character, the colon too, is no option. */
  lemma KindsRead(quiet: bool, letters: seq<Letter>, c: char)
    requires GoodLetters(letters)
    ensures forall l :: l in letters && l.c == c ==> KindOf(Spell(quiet, letters), c) == l.kind
    ensures !Listed(letters, c) ==> KindOf(Spell(quiet, letters), c) == Invalid
  {
    if c != ':' {
      LettersRead(letters, c);
      KindBehind(if quiet then ":" else "", SpellLetters(letters), c);
    }
  }

  /** A leading colon, and nothing else, changes the answer to a missing argument. */
  lemma MissingRead(quiet: bool, letters: seq<Letter>, long: Option<seq<LongOption>>)
    requires GoodLetters(letters)
    ensures MissingCode(Config(Spell(quiet, letters), long)) == (if quiet then ':' else '?') as int
  {
    NoColonFirst(letters);
  }
}
