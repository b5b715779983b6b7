// The regular expressions of the header scanner with their standard meaning, and the proof that the
// languages the scanner is modelled with are theirs.
module HeaderPatterns {
  import opened HeaderScanner
  import opened Normalise

  datatype Regex =
    | Lit(text: string)
    | One(test: char -> bool)
    | Cat(first: Regex, second: Regex)
    | Alt(left: Regex, right: Regex)
    | Star(body: Regex)

  /** The standard meaning: `x` is matched as a whole. */
  ghost predicate In(r: Regex, x: string)
    decreases |x|, r
  {
    match r
    case Lit(text) => x == text
    case One(test) => |x| == 1 && test(x[0])
    case Cat(a, b) => exists k :: 0 <= k <= |x| && In(a, x[..k]) && In(b, x[k..])
    case Alt(a, b) => In(a, x) || In(b, x)
    case Star(a) => x == "" || exists k :: 0 < k <= |x| && In(a, x[..k]) && In(r, x[k..])
  }

  // The character classes, "any" being what a dot stands for.

  predicate Alpha(c: char) { 'a' <= c <= 'z' || 'A' <= c <= 'Z' }

  predicate Digit(c: char) { '0' <= c <= '9' }

  predicate Space(c: char) { c == ' ' || c == '\t' || c == '\n' || c == '\r' || c as int == 11 || c as int == 12 }

  predicate Any(c: char) { c != '\n' }

  predicate NameChar(c: char) { Alpha(c) || Digit(c) || c == '-' }

  predicate TabOrBlank(c: char) { c == ' ' || c == '\t' }

  const NL := Lit("\r\n")

  /** The patterns as the scanner definition has them. */
  function Pattern(r: Rule): Regex
  {
    match r
    case TopLineRule => Cat(Lit("From"), Cat(One(Space), Cat(Star(One(Any)), NL)))
    case TagRule =>
      Cat(Cat(One(Alpha), Star(One(Alpha))), Cat(Star(One(NameChar)), Cat(Lit(":"), Star(One(Space)))))
    case BodyRule => Cat(Alt(Star(One(Any)), One(Space)), NL)
    case MoreRule => Cat(One(Space), Star(One(Any)))
    case EndRule => Cat(NL, Cat(Lit("."), NL))
    case BlankRule => One(TabOrBlank)
    case NewlineRule => Lit("\n")
    case EchoRule => One(_ => true)
  }

  // ----- the meaning taken apart

  predicate All(test: char -> bool, x: string)
  {
    forall k :: 0 <= k < |x| ==> test(x[k])
  }

  lemma {:induction false} StarIs(test: char -> bool, x: string)
    ensures In(Star(One(test)), x) <==> All(test, x)
    decreases |x|
  {
    if x != "" {
      StarIs(test, x[1..]);
      assert All(test, x) <==> test(x[0]) && All(test, x[1..]) by {
        assert forall k :: 1 <= k < |x| ==> x[k] == x[1..][k - 1];
      }
      if All(test, x) {
        assert In(One(test), x[..1]) && In(Star(One(test)), x[1..]);
      }
    }
  }

  lemma CatOne(test: char -> bool, b: Regex, x: string)
    ensures In(Cat(One(test), b), x) <==> x != "" && test(x[0]) && In(b, x[1..])
  {
    if x != "" && test(x[0]) && In(b, x[1..]) {
      assert In(One(test), x[..1]);
    }
  }

  lemma CatLit(text: string, b: Regex, x: string)
    ensures In(Cat(Lit(text), b), x) <==> text <= x && In(b, x[|text|..])
  {
    if text <= x && In(b, x[|text|..]) {
      assert In(Lit(text), x[..|text|]);
    }
  }

  lemma CatIs(a: Regex, b: Regex, x: string, k: nat)
    requires k <= |x| && In(a, x[..k]) && In(b, x[k..])
    ensures In(Cat(a, b), x)
  {
  }

  lemma CatSplit(a: Regex, b: Regex, x: string) returns (k: nat)
    requires In(Cat(a, b), x)
    ensures k <= |x| && In(a, x[..k]) && In(b, x[k..])
  {
    k :| 0 <= k <= |x| && In(a, x[..k]) && In(b, x[k..]);
  }

  lemma LitIs(text: string, x: string)
    ensures In(Lit(text), x) <==> x == text
  {
  }

  lemma CatEnd(a: Regex, text: string, x: string)
    ensures In(Cat(a, Lit(text)), x)
            <==> |text| <= |x| && x[|x| - |text|..] == text && In(a, x[..|x| - |text|])
  {
    hide In;
    if |text| <= |x| {
      LitIs(text, x[|x| - |text|..]);
      if x[|x| - |text|..] == text && In(a, x[..|x| - |text|]) {
        CatIs(a, Lit(text), x, |x| - |text|);
      }
    }
    if In(Cat(a, Lit(text)), x) {
      var k := CatSplit(a, Lit(text), x);
      LitIs(text, x[k..]);
      assert |x[k..]| == |x| - k == |text|;
    }
  }

  lemma ClassesAgree()
    ensures forall c :: Alpha(c) <==> IsAlpha(c)
    ensures forall c :: Digit(c) <==> IsDigit(c)
    ensures forall c :: Space(c) <==> IsSpace(c)
  {
  }

  lemma AnyIs(x: string)
    ensures All(Any, x) <==> OneLine(x)
  {
  }

  // ----- rule by rule

  lemma LineEndIff(z: string)
    ensures In(Cat(Star(One(Any)), NL), z) <==> EndsCrlf(z) && OneLine(z[..|z| - 2])
  {
    hide In, OneLine;
    CatEnd(Star(One(Any)), "\r\n", z);
    if |z| >= 2 {
      StarIs(Any, z[..|z| - 2]);
      AnyIs(z[..|z| - 2]);
    }
  }

  lemma TopLineIs(x: string)
    requires 5 <= |x|
    ensures InLanguage(TopLineRule, x)
            <==> x[..4] == "From" && IsSpace(x[4]) && EndsCrlf(x[5..]) && OneLine(x[5..][..|x[5..]| - 2])
  {
    hide OneLine;
    var z := x[5..];
    if |z| >= 2 {
      assert z[..|z| - 2] == x[5..|x| - 2] && z[|z| - 2..] == x[|x| - 2..];
    }
  }

  lemma TopLineIff(x: string)
    ensures InLanguage(TopLineRule, x) <==> In(Pattern(TopLineRule), x)
  {
    ClassesAgree();
    var last := Cat(Star(One(Any)), NL);
    CatLit("From", Cat(One(Space), last), x);
    assert "From" <= x <==> 4 <= |x| && x[..4] == "From";
    hide In, OneLine, EndsCrlf;
    if |x| >= 4 {
      CatOne(Space, last, x[4..]);
    }
    if |x| >= 5 {
      assert x[4..][1..] == x[5..];
      LineEndIff(x[5..]);
      TopLineIs(x);
    }
  }

  lemma BodyIff(x: string)
    ensures InLanguage(BodyRule, x) <==> In(Pattern(BodyRule), x)
  {
    ClassesAgree();
    CatEnd(Alt(Star(One(Any)), One(Space)), "\r\n", x);
    if |x| >= 2 {
      StarIs(Any, x[..|x| - 2]);
      AnyIs(x[..|x| - 2]);
    }
  }

  lemma MoreIff(x: string)
    ensures InLanguage(MoreRule, x) <==> In(Pattern(MoreRule), x)
  {
    ClassesAgree();
    CatOne(Space, Star(One(Any)), x);
    if x != "" {
      StarIs(Any, x[1..]);
      AnyIs(x[1..]);
    }
  }

  lemma EndIff(x: string)
    ensures InLanguage(EndRule, x) <==> In(Pattern(EndRule), x)
  {
    CatLit("\r\n", Cat(Lit("."), NL), x);
    if "\r\n" <= x {
      CatLit(".", NL, x[2..]);
      assert x == "\r\n" + x[2..];
      if "." <= x[2..] {
        assert x[2..] == "." + x[2..][1..];
      }
    }
  }

  /** The text of a tag pattern: a tag, a colon, white space. */
  lemma AfterName(x: string, c: nat)
    requires c <= |x|
    ensures In(Cat(Lit(":"), Star(One(Space))), x[c..])
            <==> c < |x| && x[c] == ':' && forall k :: c < k < |x| ==> IsSpace(x[k])
  {
    ClassesAgree();
    var y := x[c..];
    CatLit(":", Star(One(Space)), y);
    if c < |x| {
      StarIs(Space, y[1..]);
      assert ":" <= y <==> y[0] == ':';
      assert y[1..] == x[c + 1..];
      assert All(Space, x[c + 1..]) <==> forall k :: c < k < |x| ==> Space(x[k]) by {
        assert forall k :: c < k < |x| ==> x[k] == x[c + 1..][k - c - 1];
      }
    }
  }

  lemma NamePartsIff(x: string)
    ensures In(Pattern(TagRule), x)
            <==> exists c :: 0 <= c <= |x| && TagText(x[..c]) && In(Cat(Lit(":"), Star(One(Space))), x[c..])
  {
    hide In;
    var tail := Cat(Lit(":"), Star(One(Space)));
    if In(Pattern(TagRule), x) {
      var _, c := TagSplit(x);
    }
    if c :| 0 <= c <= |x| && TagText(x[..c]) && In(tail, x[c..]) {
      TagJoin(x, c);
    }
  }

  lemma LettersFirst(x: string)
    ensures In(Cat(One(Alpha), Star(One(Alpha))), x) <==> x != "" && All(Alpha, x)
  {
    CatOne(Alpha, Star(One(Alpha)), x);
    if x != "" {
      StarIs(Alpha, x[1..]);
      assert forall k :: 1 <= k < |x| ==> x[k] == x[1..][k - 1];
    }
  }

  lemma TagSplit(x: string) returns (k: nat, c: nat)
    requires In(Pattern(TagRule), x)
    ensures c <= |x| && TagText(x[..c]) && In(Cat(Lit(":"), Star(One(Space))), x[c..])
  {
    var tail := Cat(Lit(":"), Star(One(Space)));
    var letters, names := Cat(One(Alpha), Star(One(Alpha))), Star(One(NameChar));
    k :| 0 <= k <= |x| && In(letters, x[..k]) && In(Cat(names, tail), x[k..]);
    var y := x[k..];
    var n :| 0 <= n <= |y| && In(names, y[..n]) && In(tail, y[n..]);
    c := k + n;
    hide In;
    LettersFirst(x[..k]);
    StarIs(NameChar, y[..n]);
    ClassesAgree();
    assert y[n..] == x[c..];
    forall i | 0 <= i < c
      ensures IsAlpha(x[i]) || IsDigit(x[i]) || x[i] == '-'
    {
      if i < k {
        assert x[i] == x[..k][i];
      } else {
        assert x[i] == y[..n][i - k];
      }
    }
    assert x[..c][0] == x[..k][0];
  }

  lemma NameRest(x: string, c: nat)
    requires 1 <= c <= |x| && TagText(x[..c])
    ensures All(NameChar, x[1..][..c - 1]) && Alpha(x[0])
  {
    ClassesAgree();
    var name := x[..c];
    assert name[0] == x[0];
    var rest := x[1..][..c - 1];
    forall i | 0 <= i < |rest|
      ensures NameChar(rest[i])
    {
      assert rest[i] == name[i + 1];
    }
  }

  lemma TailAgain(x: string, c: nat)
    requires 1 <= c <= |x|
    ensures x[1..][c - 1..] == x[c..]
  {
  }

  lemma Join(a: Regex, b: Regex, d: Regex, x: string, c: nat)
    requires 1 <= c <= |x| && In(a, x[..1]) && In(b, x[1..][..c - 1]) && In(d, x[c..])
    ensures In(Cat(a, Cat(b, d)), x)
  {
    hide In;
    TailAgain(x, c);
    CatIs(b, d, x[1..], c - 1);
    CatIs(a, Cat(b, d), x, 1);
  }

  lemma TagPattern()
    ensures Pattern(TagRule)
      == Cat(Cat(One(Alpha), Star(One(Alpha))), Cat(Star(One(NameChar)), Cat(Lit(":"), Star(One(Space)))))
  {
  }

  lemma OneLetter(x: string)
    requires x != "" && Alpha(x[0])
    ensures In(Cat(One(Alpha), Star(One(Alpha))), x[..1])
  {
    hide In;
    LettersFirst(x[..1]);
  }

  lemma TagJoin(x: string, c: nat)
    requires c <= |x| && TagText(x[..c]) && In(Cat(Lit(":"), Star(One(Space))), x[c..])
    ensures In(Pattern(TagRule), x)
  {
    var letters, names, tail := Cat(One(Alpha), Star(One(Alpha))), Star(One(NameChar)), Cat(Lit(":"), Star(One(Space)));
    assert c > 0;
    hide *;
    NameRest(x, c);
    OneLetter(x);
    TagPattern();
    StarIs(NameChar, x[1..][..c - 1]);
    Join(letters, names, tail, x, c);
  }

  lemma TagIff(x: string)
    ensures InLanguage(TagRule, x) <==> In(Pattern(TagRule), x)
  {
    hide In, TagText;
    var tail := Cat(Lit(":"), Star(One(Space)));
    NamePartsIff(x);
    if InLanguage(TagRule, x) {
      var c :| 0 <= c < |x| && TagLexeme(x, c);
      AfterName(x, c);
    }
    if c :| 0 <= c <= |x| && TagText(x[..c]) && In(tail, x[c..]) {
      AfterName(x, c);
      assert TagLexeme(x, c);
    }
  }

  /** Every rule matches exactly what its regular expression says. */
  lemma PatternIff(r: Rule, x: string)
    ensures InLanguage(r, x) <==> In(Pattern(r), x)
  {
    hide InLanguage, In;
    match r {
      case TopLineRule => TopLineIff(x);
      case TagRule => TagIff(x);
      case BodyRule => BodyIff(x);
      case MoreRule => MoreIff(x);
      case EndRule => EndIff(x);
      case _ => CharacterIff(r, x);
    }
  }

  lemma CharacterIff(r: Rule, x: string)
    requires r.BlankRule? || r.NewlineRule? || r.EchoRule?
    ensures InLanguage(r, x) <==> In(Pattern(r), x)
  {
  }
}
