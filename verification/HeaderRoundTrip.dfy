// Rendering header fields the way RFC 822, section 3.1 writes them and reading them back.
module HeaderRoundTrip {
  import opened Common
  import opened Normalise
  import H = Header
  import opened HeaderScanner
  import opened HeaderParser
  import opened Replies

  /** A field: the first line of its body and the folded continuation lines. */
  datatype Field = Field(tag: string, first: string, more: seq<string>)

  predicate GoodContinuation(m: string)
  {
    m != "" && (m[0] == ' ' || m[0] == '\t') && OneLine(m)
  }

  /** A field name: a letter, then letters, digits and hyphens. */
  predicate FieldName(t: string)
  {
    && t != "" && ('a' <= t[0] <= 'z' || 'A' <= t[0] <= 'Z')
    && forall k :: 0 <= k < |t| ==>
         'a' <= t[k] <= 'z' || 'A' <= t[k] <= 'Z' || '0' <= t[k] <= '9' || t[k] == '-'
  }

  /** The scanner's tags are exactly the field names. */
  lemma TagTextIff(t: string)
    ensures TagText(t) <==> FieldName(t)
  {
  }

  predicate PlainField(f: Field)
  {
    FieldName(f.tag) && OneLine(f.first) && forall m :: m in f.more ==> GoodContinuation(m)
  }

  predicate StartsVisible(s: string)
  {
    s != "" && !IsSpace(s[0])
  }

  predicate GoodField(f: Field)
  {
    PlainField(f) && StartsVisible(f.first)
  }

  // ----- writing

  function RenderMore(more: seq<string>): string
  {
    if more == [] then "" else more[0] + CRLF + RenderMore(more[1..])
  }

  function Render(f: Field): string
  {
    f.tag + ": " + f.first + CRLF + RenderMore(f.more)
  }

  function RenderAll(fields: seq<Field>): string
  {
    if fields == [] then "" else Render(fields[0]) + RenderAll(fields[1..])
  }

  // ----- what is read

  /** A continuation line is read with its carriage return, all white space turned into blanks. */
  function MoreText(more: seq<string>): string
  {
    if more == [] then "" else Blanked(more[0] + "\r") + MoreText(more[1..])
  }

  function EntryOf(f: Field): Entry
  {
    H.Entry(f.tag, f.first + MoreText(f.more))
  }

  function EntriesOf(fields: seq<Field>): seq<Entry>
  {
    if fields == [] then [] else [EntryOf(fields[0])] + EntriesOf(fields[1..])
  }

  // ----- the match taken at each kind of line

  lemma {:induction false} LastColonIs(t: string, space: string)
    requires AllSpace(space)
    ensures LastColon(t + ":" + space) == |t|
  {
    var x := t + ":" + space;
    if space == "" {
      assert x == t + ":";
    } else {
      var n := |space| - 1;
      assert x[..|x| - 1] == t + ":" + space[..n] && x[|x| - 1] == space[n];
      LastColonIs(t, space[..n]);
    }
  }

  /** What a match says about the characters of the input. */
  ghost predicate Shape(r: Rule, input: string, k: nat)
    requires 1 <= k <= |input|
  {
    match r
    case TopLineRule => 7 <= k && input[0] == 'F' && IsSpace(input[4]) && forall i :: 0 <= i < 4 ==> input[i] != ':'
    case TagRule =>
      && IsAlpha(input[0])
      && exists d :: 0 < d < k && FirstColon(input, d) && forall i :: d < i < k ==> IsSpace(input[i])
    case BodyRule =>
      && 2 <= k && input[k - 2] == '\r' && input[k - 1] == '\n'
      && ((k == 3 && IsSpace(input[0])) || forall i :: 0 <= i < k - 2 ==> input[i] != '\n')
    case MoreRule => IsSpace(input[0]) && forall i :: 1 <= i < k ==> input[i] != '\n'
    case EndRule => k == 5 && input[0] == '\r'
    case BlankRule => k == 1 && (input[0] == ' ' || input[0] == '\t')
    case NewlineRule => k == 1 && input[0] == '\n'
    case EchoRule => k == 1
  }

  predicate FirstColon(input: string, d: nat)
  {
    d < |input| && input[d] == ':' && forall i :: 0 <= i < d ==> input[i] != ':'
  }

  lemma TopLineShape(input: string, k: nat)
    requires 1 <= k <= |input| && InLanguage(TopLineRule, input[..k])
    ensures Shape(TopLineRule, input, k)
  {
    var x := input[..k];
    assert x[..4] == "From";
    assert forall i :: 0 <= i < 4 ==> input[i] == x[..4][i];
  }

  lemma TagShape(input: string, k: nat)
    requires 1 <= k <= |input| && InLanguage(TagRule, input[..k])
    ensures Shape(TagRule, input, k)
  {
    hide IsSpace;
    var x := input[..k];
    var d :| 0 <= d < |x| && TagLexeme(x, d);
    assert x[..d][0] == input[0];
    forall i | 0 <= i < d
      ensures input[i] != ':'
    {
      assert x[..d][i] == input[i];
    }
    assert FirstColon(input, d);
  }

  lemma BodyShape(input: string, k: nat)
    requires 1 <= k <= |input| && InLanguage(BodyRule, input[..k])
    ensures Shape(BodyRule, input, k)
  {
    hide IsSpace;
    var x := input[..k];
    assert x[|x| - 2..][0] == '\r' && x[|x| - 2..][1] == '\n';
    if OneLine(x[..|x| - 2]) {
      assert forall i :: 0 <= i < k - 2 ==> x[..|x| - 2][i] == input[i];
    }
  }

  lemma MoreShape(input: string, k: nat)
    requires 1 <= k <= |input| && InLanguage(MoreRule, input[..k])
    ensures Shape(MoreRule, input, k)
  {
    hide IsSpace;
    var x := input[..k];
    assert forall i :: 1 <= i < k ==> x[1..][i - 1] == input[i];
  }

  lemma MatchShape(r: Rule, c: Condition, bol: bool, input: string, k: nat)
    requires Matches(r, c, bol, input, k)
    ensures Shape(r, input, k) && Active(r, c, bol)
  {
    match r {
      case TopLineRule => TopLineShape(input, k);
      case TagRule => TagShape(input, k);
      case BodyRule => BodyShape(input, k);
      case MoreRule => MoreShape(input, k);
      case EndRule => assert input[..k][0] == CLOSING[0];
      case _ => assert input[..k][0] == input[0];
    }
  }

  lemma TagTaken(c: Condition, tag: string, space: string, rest: string)
    requires TagText(tag) && AllSpace(space) && StartsVisible(rest) && c != BodyReady
    ensures Taken(TagRule, c, true, tag + ":" + space + rest, |tag| + 1 + |space|)
  {
    var input, n := tag + ":" + space + rest, |tag| + 1 + |space|;
    assert input[..n] == tag + ":" + space;
    assert TagLexeme(input[..n], |tag|) by {
      assert input[..n][..|tag|] == tag;
    }
    assert input[n] == rest[0] && input[|tag|] == ':';
    assert forall i :: 0 <= i < |tag| ==> input[i] == tag[i];
    forall q: Rule, k: nat | Matches(q, c, true, input, k)
      ensures k < n || (k == n && Rank(TagRule) <= Rank(q))
    {
      MatchShape(q, c, true, input, k);
    }
  }

  lemma BodyTaken(bol: bool, first: string, rest: string)
    requires StartsVisible(first) && OneLine(first)
    ensures Taken(BodyRule, BodyReady, bol, first + CRLF + rest, |first| + 2)
  {
    var input, n := first + CRLF + rest, |first| + 2;
    assert input[..n] == first + CRLF;
    assert input[..n][..|first|] == first && input[..n][|first|..] == CRLF;
    assert input[0] == first[0] && input[n - 1] == '\n';
    forall q: Rule, k: nat | Matches(q, BodyReady, bol, input, k)
      ensures k < n || (k == n && Rank(BodyRule) <= Rank(q))
    {
      MatchShape(q, BodyReady, bol, input, k);
    }
  }

  lemma MoreTaken(c: Condition, m: string, rest: string)
    requires GoodContinuation(m) && c != BodyReady
    ensures Taken(MoreRule, c, true, m + CRLF + rest, |m| + 1)
  {
    var input, n := m + CRLF + rest, |m| + 1;
    assert input[..n] == m + "\r";
    assert input[..n][1..] == m[1..] + "\r";
    assert input[0] == m[0] && input[n] == '\n';
    forall q: Rule, k: nat | Matches(q, c, true, input, k)
      ensures k < n || (k == n && Rank(MoreRule) <= Rank(q))
    {
      MatchShape(q, c, true, input, k);
    }
  }

  lemma NewlineTaken(rest: string)
    ensures Taken(NewlineRule, TagReady, false, "\n" + rest, 1)
  {
    var input := "\n" + rest;
    assert input[..1] == "\n" && input[0] == '\n';
    forall q: Rule, k: nat | Matches(q, TagReady, false, input, k)
      ensures k < 1 || (k == 1 && Rank(NewlineRule) <= Rank(q))
    {
      MatchShape(q, TagReady, false, input, k);
    }
  }

  lemma ClosingTaken()
    ensures Taken(EndRule, Initial, true, CLOSING, 5)
  {
    assert CLOSING[..5] == CLOSING && CLOSING[0] == '\r' && CLOSING[1] == '\n';
    forall q: Rule, k: nat | Matches(q, Initial, true, CLOSING, k)
      ensures k < 5 || (k == 5 && Rank(EndRule) <= Rank(q))
    {
      MatchShape(q, Initial, true, CLOSING, k);
    }
  }

  // ----- the tokens of a rendered header

  /** The tag rule takes all white space behind the colon, line ends too. */
  lemma ScanTag(tag: string, space: string, rest: string)
    requires TagText(tag) && AllSpace(space) && StartsVisible(rest)
    ensures Tokens(Initial, true, tag + ":" + space + rest)
            == [Tag(tag)] + Tokens(BodyReady, space != "" && space[|space| - 1] == '\n', rest)
  {
    hide Tokens, Taken;
    var input, n := tag + ":" + space + rest, |tag| + 1 + |space|;
    TagTaken(Initial, tag, space, rest);
    TokensStep(TagRule, Initial, true, input, n);
    assert input[n..] == rest;
    assert input[..n] == tag + ":" + space;
    LastColonIs(tag, space);
    assert input[..n][..|tag|] == tag;
  }

  lemma ScanBody(bol: bool, first: string, rest: string)
    requires StartsVisible(first) && OneLine(first)
    ensures Tokens(BodyReady, bol, first + CRLF + rest) == [Body(first)] + Tokens(Initial, true, rest)
  {
    hide Tokens, Taken;
    var input, n := first + CRLF + rest, |first| + 2;
    BodyTaken(bol, first, rest);
    TokensStep(BodyRule, BodyReady, bol, input, n);
    assert input[n..] == rest && input[n - 1] == '\n';
    assert input[..n][..n - 2] == first;
  }

  lemma ScanMore(m: string, rest: string)
    requires GoodContinuation(m)
    ensures Tokens(Initial, true, m + CRLF + rest) == [Body(Blanked(m + "\r"))] + Tokens(Initial, true, rest)
  {
    hide Tokens, Taken;
    var input, n := m + CRLF + rest, |m| + 1;
    MoreTaken(Initial, m, rest);
    TokensStep(MoreRule, Initial, true, input, n);
    assert input[n..] == "\n" + rest && input[n - 1] == '\r';
    assert input[..n] == m + "\r";
    NewlineTaken(rest);
    TokensStep(NewlineRule, TagReady, false, "\n" + rest, 1);
    assert ("\n" + rest)[1..] == rest;
  }

  lemma ScanClosing()
    ensures Tokens(Initial, true, CLOSING) == [HeaderEnd]
  {
    hide Taken, Tokens;
    ClosingTaken();
    TokensStep(EndRule, Initial, true, CLOSING, 5);
    assert CLOSING[5..] == "" && CLOSING[..5] == CLOSING;
    NoTokens(Initial, true, CLOSING[5..]);
    NoTokens(Initial, false, CLOSING[5..]);
  }

  // ----- scanning, then parsing

  /** Parsing from the beginning of a line in the middle of the header. */
  function From(p: Partial, text: string): Option<seq<Entry>>
  {
    Continue(p, Tokens(Initial, true, text))
  }

  lemma {:induction false} ReadMore(tag: string, body: string, more: seq<string>, rest: string)
    requires forall m :: m in more ==> GoodContinuation(m)
    ensures From(HasBody(tag, body), RenderMore(more) + rest) == From(HasBody(tag, body + MoreText(more)), rest)
    decreases |more|
  {
    hide Tokens, Blanked;
    if more == [] {
      assert RenderMore(more) + rest == rest && body + MoreText(more) == body;
    } else {
      var text := Blanked(more[0] + "\r");
      assert RenderMore(more) + rest == more[0] + CRLF + (RenderMore(more[1..]) + rest);
      ScanMore(more[0], RenderMore(more[1..]) + rest);
      Shift(HasBody(tag, body), Tokens(Initial, true, RenderMore(more) + rest));
      ReadMore(tag, body + text, more[1..], rest);
      assert body + text + MoreText(more[1..]) == body + MoreText(more);
    }
  }

  lemma ReadField(f: Field, rest: string)
    requires GoodField(f)
    ensures From(Between, Render(f) + rest) == From(HasBody(f.tag, f.first + MoreText(f.more)), rest)
  {
    hide Tokens, Continue, TagText;
    var behind := RenderMore(f.more) + rest;
    var body := f.first + CRLF + behind;
    assert Render(f) + rest == f.tag + ":" + " " + body;
    TagTextIff(f.tag);
    ScanTag(f.tag, " ", body);
    ScanBody(false, f.first, behind);
    var ts := Tokens(Initial, true, Render(f) + rest);
    Shift(Between, ts);
    Shift(HasTag(f.tag), ts[1..]);
    assert ts[1..][1..] == Tokens(Initial, true, behind);
    ReadMore(f.tag, f.first, f.more, rest);
  }

  // ----- what the tag rule leaves of a field

  lemma {:induction false} SkipIs(s: string)
    ensures var n := |s| - |SkipSpace(s)|;
      SkipSpace(s) == s[n..] && forall k :: 0 <= k < n ==> IsSpace(s[k])
  {
    hide IsSpace;
    if s != "" && IsSpace(s[0]) {
      SkipIs(s[1..]);
      var n := |s| - |SkipSpace(s)|;
      assert s[1..][n - 1..] == s[n..];
      forall k | 0 <= k < n
        ensures IsSpace(s[k])
      {
        if k > 0 {
          assert s[1..][k - 1] == s[k];
        }
      }
    }
  }

  lemma SkipSplit(s: string) returns (space: string)
    ensures AllSpace(space) && s == space + SkipSpace(s)
  {
    hide IsSpace, SkipSpace;
    SkipIs(s);
    space := s[..|s| - |SkipSpace(s)|];
  }

  /** A field's text behind the colon, and all that follows the field. */
  function BehindColon(f: Field, fields: seq<Field>): string
  {
    " " + f.first + CRLF + RenderMore(f.more) + RenderAll(fields) + CLOSING
  }

  lemma TextIs(f: Field, fields: seq<Field>)
    ensures RenderAll([f] + fields) + CLOSING == f.tag + ":" + BehindColon(f, fields)
  {
    assert ([f] + fields)[1..] == fields;
    assert f.tag + ": " == f.tag + ":" + " ";
  }

  lemma SomethingLeft(s: string)
    ensures s != "" && !IsSpace(s[|s| - 1]) ==> SkipSpace(s) != ""
    decreases |s|
  {
    if |s| > 1 {
      SomethingLeft(s[1..]);
    }
  }

  /** The text behind the tag's white space starts with a visible character and ends like the header. */
  lemma LeftOfField(f: Field, fields: seq<Field>) returns (space: string)
    ensures var w := BehindColon(f, fields);
      AllSpace(space) && w == space + SkipSpace(w) && StartsVisible(SkipSpace(w)) && '\n' in SkipSpace(w)
  {
    var w := BehindColon(f, fields);
    space := SkipSplit(w);
    var front, left := w[..|w| - 2], SkipSpace(w);
    assert w == front + "\r\n" && front[|front| - 1] == '.' && w[|w| - 1] == '\n';
    assert w[|front| - 1] == '.' && forall k :: 0 <= k < |space| ==> w[k] == space[k] && IsSpace(w[k]);
    assert left == w[|space|..] && left[|left| - 1] == w[|w| - 1];
  }

  lemma TagRead(f: Field, fields: seq<Field>) returns (bol: bool)
    requires TagText(f.tag)
    ensures Tokens(Initial, true, RenderAll([f] + fields) + CLOSING)
            == [Tag(f.tag)] + Tokens(BodyReady, bol, SkipSpace(BehindColon(f, fields)))
  {
    hide Tokens, TagText, SkipSpace;
    var space := LeftOfField(f, fields);
    var left := SkipSpace(BehindColon(f, fields));
    TextIs(f, fields);
    assert f.tag + ":" + BehindColon(f, fields) == f.tag + ":" + space + left;
    ScanTag(f.tag, space, left);
    bol := space != "" && space[|space| - 1] == '\n';
  }

  /** At the start of the next field, or at the closing, the entry before is finished. */
  lemma EntryEnds(tag: string, body: string, fields: seq<Field>)
    requires forall f :: f in fields ==> PlainField(f)
    ensures From(HasBody(tag, body), RenderAll(fields) + CLOSING)
            == Prefixed([H.Entry(tag, body)], From(Between, RenderAll(fields) + CLOSING))
  {
    hide Tokens, TagText;
    var ts := Tokens(Initial, true, RenderAll(fields) + CLOSING);
    if fields == [] {
      assert RenderAll(fields) + CLOSING == CLOSING;
      ScanClosing();
    } else {
      assert PlainField(fields[0]) && [fields[0]] + fields[1..] == fields;
      TagTextIff(fields[0].tag);
      var _ := TagRead(fields[0], fields[1..]);
    }
    assert !ts[0].Body?;
  }

  lemma OnlyEnd(ts: seq<Token>)
    requires |ts| == 1 && ts[0] == HeaderEnd
    ensures Continue(Between, ts) == Some([])
  {
  }

  lemma NothingRendered()
    ensures RenderAll([]) + CLOSING == CLOSING
  {
    hide CLOSING;
  }

  lemma ReadNone()
    ensures From(Between, RenderAll([]) + CLOSING) == Some([])
  {
    hide Tokens, Continue, RenderAll, CLOSING;
    NothingRendered();
    ScanClosing();
    OnlyEnd([HeaderEnd]);
  }

  lemma FirstRendered(fields: seq<Field>)
    requires fields != []
    ensures RenderAll(fields) + CLOSING == Render(fields[0]) + (RenderAll(fields[1..]) + CLOSING)
  {
    hide Render;
  }

  lemma ReadFirst(fields: seq<Field>)
    requires fields != [] && GoodField(fields[0]) && forall f :: f in fields ==> PlainField(f)
    ensures From(Between, RenderAll(fields) + CLOSING)
            == Prefixed([EntryOf(fields[0])], From(Between, RenderAll(fields[1..]) + CLOSING))
  {
    var f, rest := fields[0], RenderAll(fields[1..]) + CLOSING;
    assert EntryOf(f) == H.Entry(f.tag, f.first + MoreText(f.more));
    assert forall g :: g in fields[1..] ==> g in fields;
    hide *;
    FirstRendered(fields);
    ReadField(f, rest);
    EntryEnds(f.tag, f.first + MoreText(f.more), fields[1..]);
  }

  lemma {:induction false} ReadFields(fields: seq<Field>)
    requires forall f :: f in fields ==> GoodField(f)
    ensures From(Between, RenderAll(fields) + CLOSING) == Some(EntriesOf(fields))
    decreases |fields|
  {
    if fields == [] {
      ReadNone();
    } else {
      assert forall f :: f in fields ==> PlainField(f);
      hide From, GoodField, PlainField, RenderAll, EntryOf;
      ReadFirst(fields);
      ReadFields(fields[1..]);
    }
  }

  /** A rendered header, closed by the blank line and the dot, is read back entry by entry. */
  lemma ReadingInvertsRendering(fields: seq<Field>)
    requires forall f :: f in fields ==> GoodField(f)
    ensures ParseText(RenderAll(fields) + CLOSING) == Some(EntriesOf(fields))
  {
    hide Tokens, Continue;
    ReadFields(fields);
  }

  // ----- exactly which headers are read back

  /** Every newline inside stands behind a carriage return. */
  predicate CrlfLines(s: string)
  {
    forall i :: 0 < i < |s| && s[i] == '\n' ==> s[i - 1] == '\r'
  }

  lemma CrlfAppend(a: string, b: string)
    requires CrlfLines(a) && CrlfLines(b) && (b != "" ==> b[0] != '\n')
    ensures CrlfLines(a + b)
  {
    var s := a + b;
    forall i | 0 < i < |s| && s[i] == '\n'
      ensures s[i - 1] == '\r'
    {
      if i > |a| {
        assert s[i] == b[i - |a|] && s[i - 1] == b[i - |a| - 1];
      }
    }
  }

  lemma {:induction false} MoreIsCrlf(more: seq<string>, rest: string)
    requires forall m :: m in more ==> GoodContinuation(m)
    requires CrlfLines(rest) && rest != "" && rest[0] != '\n'
    ensures var s := RenderMore(more) + rest; CrlfLines(s) && s != "" && s[0] != '\n'
  {
    if more == [] {
      assert RenderMore(more) + rest == rest;
    } else {
      var m, later := more[0], RenderMore(more[1..]) + rest;
      assert m in more;
      MoreIsCrlf(more[1..], rest);
      LineIsCrlf(m);
      CrlfAppend(m + CRLF, later);
      assert RenderMore(more) + rest == (m + CRLF) + later;
    }
  }

  lemma LineIsCrlf(line: string)
    requires OneLine(line)
    ensures CrlfLines(line + CRLF)
  {
  }

  lemma BehindIsCrlf(f: Field, fields: seq<Field>)
    requires PlainField(f) && CrlfLines(RenderAll(fields) + CLOSING)
    requires (RenderAll(fields) + CLOSING)[0] != '\n'
    ensures CrlfLines(BehindColon(f, fields))
  {
    var after := RenderAll(fields) + CLOSING;
    MoreIsCrlf(f.more, after);
    LineIsCrlf(" " + f.first);
    CrlfAppend(" " + f.first + CRLF, RenderMore(f.more) + after);
    assert BehindColon(f, fields) == (" " + f.first + CRLF) + (RenderMore(f.more) + after);
  }

  lemma TagIsCrlf(tag: string)
    requires TagText(tag)
    ensures CrlfLines(tag + ":") && (tag + ":")[0] != '\n'
  {
  }

  lemma BehindStarts(f: Field, fields: seq<Field>)
    ensures var w := BehindColon(f, fields); w != "" && w[0] == ' '
  {
  }

  lemma FieldIsCrlf(f: Field, fields: seq<Field>)
    requires TagText(f.tag) && CrlfLines(BehindColon(f, fields))
    ensures var s := RenderAll([f] + fields) + CLOSING; CrlfLines(s) && s[0] != '\n'
  {
    TagIsCrlf(f.tag);
    BehindStarts(f, fields);
    TextIs(f, fields);
    hide CrlfLines, BehindColon, RenderAll, TagText, CLOSING;
    CrlfAppend(f.tag + ":", BehindColon(f, fields));
  }

  lemma {:induction false} TextIsCrlf(fields: seq<Field>)
    requires forall f :: f in fields ==> PlainField(f)
    ensures var s := RenderAll(fields) + CLOSING; CrlfLines(s) && s[0] != '\n'
  {
    if fields == [] {
      assert RenderAll(fields) + CLOSING == CLOSING;
    } else {
      hide CrlfLines, BehindColon, RenderAll, TagText;
      var f, later := fields[0], fields[1..];
      assert [f] + later == fields;
      TextIsCrlf(later);
      BehindIsCrlf(f, later);
      FieldIsCrlf(f, later);
    }
  }

  lemma LeftIsCrlf(a: string, b: string)
    requires CrlfLines(a + b)
    ensures CrlfLines(b)
  {
    var s := a + b;
    forall i | 0 < i < |b| && b[i] == '\n'
      ensures b[i - 1] == '\r'
    {
      assert s[|a| + i] == b[i] && s[|a| + i - 1] == b[i - 1];
    }
  }

  /** The first line of a text. */
  lemma FirstLine(s: string) returns (line: string, rest: string)
    requires CrlfLines(s) && StartsVisible(s) && '\n' in s
    ensures s == line + CRLF + rest && OneLine(line) && StartsVisible(line)
  {
    var p := 0;
    while p < |s| && s[p] != '\n'
      invariant 0 <= p <= |s| && forall i :: 0 <= i < p ==> s[i] != '\n'
    {
      p := p + 1;
    }
    line, rest := s[..p - 1], s[p + 1..];
    assert s == s[..p - 1] + [s[p - 1], s[p]] + s[p + 1..];
  }

  /** What is read of a body stays at the front of the entry. */
  lemma {:induction false} BodyStays(t: string, b: string, ts: seq<Token>)
    requires Continue(HasBody(t, b), ts).Some?
    ensures var es := Continue(HasBody(t, b), ts).value; es != [] && b <= es[0].body
    decreases |ts|
  {
    if ts != [] && ts[0].Body? {
      BodyStays(t, b + ts[0].text, ts[1..]);
    }
  }

  lemma {:induction false} BlankedAt(x: string, k: nat)
    requires k < |x|
    ensures Blanked(x)[k] == if IsSpace(x[k]) then ' ' else x[k]
  {
    if k < |x| - 1 {
      BlankedAt(x[..|x| - 1], k);
    }
  }

  lemma EntryStartsBlank(f: Field)
    requires PlainField(f) && !StartsVisible(f.first)
    ensures !StartsVisible(EntryOf(f).body)
  {
    if f.first == "" && f.more != [] {
      var m := f.more[0];
      assert GoodContinuation(m);
      BlankedAt(m + "\r", 0);
      assert EntryOf(f).body[0] == Blanked(m + "\r")[0];
    }
  }

  /** A field whose first line is empty or starts with white space is not read back: what the tag
      rule leaves starts with a visible character. */
  lemma InvisibleStartLost(f: Field, fields: seq<Field>)
    requires PlainField(f) && !StartsVisible(f.first) && forall g :: g in fields ==> PlainField(g)
    ensures var r := From(Between, RenderAll([f] + fields) + CLOSING);
      r.Some? ==> r.value != [] && r.value[0] != EntryOf(f)
  {
    var text := RenderAll([f] + fields) + CLOSING;
    hide *;
    PlainTag(f);
    TextIsCrlf(fields);
    BehindIsCrlf(f, fields);
    var bol := TagRead(f, fields);
    var w := BehindColon(f, fields);
    var space := LeftOfField(f, fields);
    LeftIsCrlf(space, SkipSpace(w));
    var line, rest := FirstLine(SkipSpace(w));
    ScanBody(bol, line, rest);
    TagAndBody(text, f.tag, line, Tokens(Initial, true, rest));
    EntryStartsBlank(f);
    StartKept(line, EntryOf(f).body);
  }

  lemma TagAndBody(text: string, tag: string, line: string, ts: seq<Token>)
    requires Tokens(Initial, true, text) == [Tag(tag)] + ([Body(line)] + ts)
    ensures var r := From(Between, text); r.Some? ==> r.value != [] && line <= r.value[0].body
  {
    hide Tokens;
    var all := Tokens(Initial, true, text);
    assert all[1..] == [Body(line)] + ts && all[1..][1..] == ts;
    if From(Between, text).Some? {
      hide Continue;
      Shift(Between, all);
      Shift(HasTag(tag), all[1..]);
      BodyStays(tag, line, ts);
    }
  }

  lemma StartKept(line: string, body: string)
    requires StartsVisible(line) && !StartsVisible(body)
    ensures !(line <= body)
  {
  }

  lemma PlainTag(f: Field)
    requires PlainField(f)
    ensures TagText(f.tag)
  {
    TagTextIff(f.tag);
  }

  lemma {:induction false} ReadBackIsGood(fields: seq<Field>)
    requires forall f :: f in fields ==> PlainField(f)
    requires From(Between, RenderAll(fields) + CLOSING) == Some(EntriesOf(fields))
    ensures forall f :: f in fields ==> GoodField(f)
    decreases |fields|
  {
    hide From, PlainField, StartsVisible, RenderAll, EntryOf;
    if fields != [] {
      var f, rest := fields[0], RenderAll(fields[1..]) + CLOSING;
      assert [f] + fields[1..] == fields;
      if !StartsVisible(f.first) {
        InvisibleStartLost(f, fields[1..]);
      } else {
        ReadFirst(fields);
        assert EntriesOf(fields)[1..] == EntriesOf(fields[1..]);
        var r := From(Between, rest);
        assert r.Some? && ([EntryOf(f)] + r.value)[1..] == r.value;
        ReadBackIsGood(fields[1..]);
      }
    }
  }

  /** A rendered header is read back exactly when every body starts visibly: an empty or blank first
      line is swallowed together with its line end. */
  lemma ReadBackIff(fields: seq<Field>)
    requires forall f :: f in fields ==> PlainField(f)
    ensures ParseText(RenderAll(fields) + CLOSING) == Some(EntriesOf(fields))
            <==> forall f :: f in fields ==> StartsVisible(f.first)
  {
    hide Tokens, Continue, PlainField, StartsVisible;
    if forall f :: f in fields ==> StartsVisible(f.first) {
      ReadFields(fields);
    }
    if ParseText(RenderAll(fields) + CLOSING) == Some(EntriesOf(fields)) {
      ReadBackIsGood(fields);
    }
  }

  /** A concrete field with an empty body: the next field becomes its body. */
  lemma EmptyBodySwallowsField()
    ensures ParseText(RenderAll([Field("A", "", []), Field("B", "c", [])]) + CLOSING) == Some([H.Entry("A", "B: c")])
  {
    hide Tokens, Continue;
    var text := RenderAll([Field("A", "", []), Field("B", "c", [])]) + CLOSING;
    assert text == "A" + ":" + " \r\n" + ("B: c" + CRLF + CLOSING);
    ScanTag("A", " \r\n", "B: c" + CRLF + CLOSING);
    ScanBody(true, "B: c", CLOSING);
    ScanClosing();
    var ts := [Tag("A"), Body("B: c"), HeaderEnd];
    assert Tokens(Initial, true, text) == ts;
    Shift(Between, ts);
    Shift(HasTag("A"), ts[1..]);
    assert ts[1..][1..] == [HeaderEnd];
    ClosingEnds("A", "B: c");
  }

  lemma ClosingEnds(tag: string, body: string)
    ensures Continue(HasBody(tag, body), [HeaderEnd]) == Some([H.Entry(tag, body)])
  {
    assert [HeaderEnd][1..] == [];
    assert Continue(Between, [HeaderEnd]) == Some([]) && [H.Entry(tag, body)] + [] == [H.Entry(tag, body)];
  }

  // ----- what is no field

  lemma FromTaken(space: char, line: string, rest: string)
    requires IsSpace(space) && OneLine(line)
    ensures Taken(TopLineRule, Initial, true, "From" + [space] + line + CRLF + rest, 7 + |line|)
  {
    var input, n := "From" + [space] + line + CRLF + rest, 7 + |line|;
    var x := input[..n];
    assert x == "From" + [space] + line + CRLF;
    assert x[..4] == "From" && x[4] == space && x[5..|x| - 2] == line && x[|x| - 2..] == CRLF;
    assert input[0] == 'F' && input[1] == 'r' && input[2] == 'o' && input[3] == 'm' && input[4] == space;
    assert input[n - 1] == '\n';
    forall q: Rule, k: nat | Matches(q, Initial, true, input, k)
      ensures k < n || (k == n && Rank(TopLineRule) <= Rank(q))
    {
      MatchShape(q, Initial, true, input, k);
      if q == TopLineRule {
        FromShape(input, k);
      }
    }
  }

  lemma FromShape(input: string, k: nat)
    requires 1 <= k <= |input| && InLanguage(TopLineRule, input[..k])
    ensures 7 <= k && input[k - 2] == '\r' && input[k - 1] == '\n' && forall i :: 5 <= i < k - 2 ==> input[i] != '\n'
  {
    var x := input[..k];
    assert x[|x| - 2..][0] == x[k - 2] && x[|x| - 2..][1] == x[k - 1];
    assert forall i :: 5 <= i < k - 2 ==> x[5..|x| - 2][i - 5] == input[i];
  }

  /** A header that starts with a mailbox separator line is a syntax error. */
  lemma SeparatorRejected(space: char, line: string, rest: string, bad: Entry -> bool)
    requires IsSpace(space) && OneLine(line)
    ensures EndOf(bad, "From" + [space] + line + CRLF + rest) == SyntaxError
  {
    hide Tokens, Taken;
    var input, n := "From" + [space] + line + CRLF + rest, 7 + |line|;
    FromTaken(space, line, rest);
    TokensStep(TopLineRule, Initial, true, input, n);
  }

  /** Characters that start no token are skipped. */
  lemma CharacterSkipped(bol: bool, c: char, rest: string)
    requires c != '\r' && c != '\n' && (bol ==> !IsAlpha(c) && !IsSpace(c))
    ensures Tokens(Initial, bol, [c] + rest) == Tokens(Initial, false, rest)
  {
    hide Tokens;
    var input := [c] + rest;
    var r := if c == ' ' || c == '\t' then BlankRule else EchoRule;
    assert input[..1] == [c] && input[0] == c && input[1..] == rest;
    forall q: Rule, k: nat | Matches(q, Initial, bol, input, k)
      ensures k < 1 || (k == 1 && Rank(r) <= Rank(q))
    {
      MatchShape(q, Initial, bol, input, k);
    }
    assert Taken(r, Initial, bol, input, 1);
    TokensStep(r, Initial, bol, input, 1);
  }

  /** A line of one blank is a continuation, not a skipped blank. */
  lemma LoneBlank(rest: string)
    ensures Tokens(Initial, true, " \n" + rest) == [Body(" ")] + Tokens(Initial, true, rest)
  {
    hide Tokens;
    var input := " \n" + rest;
    assert input[..1] == " " && input[0] == ' ' && input[1] == '\n' && input[1..] == "\n" + rest;
    assert " "[1..] == "";
    forall q: Rule, k: nat | Matches(q, Initial, true, input, k)
      ensures k < 1 || (k == 1 && Rank(MoreRule) <= Rank(q))
    {
      MatchShape(q, Initial, true, input, k);
    }
    assert Taken(MoreRule, Initial, true, input, 1);
    TokensStep(MoreRule, Initial, true, input, 1);
    assert Blanked(" ") == " ";
    NewlineTaken(rest);
    TokensStep(NewlineRule, TagReady, false, "\n" + rest, 1);
    assert ("\n" + rest)[1..] == rest;
  }

  /** A bare newline at the beginning of a line is taken as a continuation, too. */
  lemma EmptyLineTaken(rest: string)
    ensures Taken(MoreRule, Initial, true, "\n\n" + rest, 1)
  {
    var input := "\n\n" + rest;
    assert input[..1] == "\n" && input[0] == '\n' && input[1] == '\n' && "\n"[1..] == "";
    forall q: Rule, k: nat | Matches(q, Initial, true, input, k)
      ensures k < 1 || (k == 1 && Rank(MoreRule) <= Rank(q))
    {
      MatchShape(q, Initial, true, input, k);
    }
  }

  /** For an unfolded field the weeder sees the line as it was written. */
  lemma UnfoldedExact(f: Field)
    requires f.more == []
    ensures Render(f) == H.Line(EntryOf(f)) + CRLF
  {
    assert f.first + MoreText(f.more) == f.first;
  }

  /** The characters that are not white space. */
  function Visible(s: string): string
  {
    if s == "" then "" else Visible(s[..|s| - 1]) + if IsSpace(s[|s| - 1]) then "" else [s[|s| - 1]]
  }

  lemma {:induction false} VisibleAppend(a: string, b: string)
    ensures Visible(a + b) == Visible(a) + Visible(b)
  {
    if b == "" {
      assert a + b == a;
    } else {
      var n := |b| - 1;
      VisibleAppend(a, b[..n]);
      assert (a + b)[..|a + b| - 1] == a + b[..n];
    }
  }

  lemma {:induction false} VisibleBlanked(s: string)
    ensures Visible(Blanked(s)) == Visible(s)
  {
    if s != "" {
      var n := |s| - 1;
      VisibleBlanked(s[..n]);
      assert Blanked(s)[..n] == Blanked(s[..n]);
    }
  }

  lemma {:induction false} VisibleMore(more: seq<string>)
    ensures Visible(MoreText(more)) == Visible(RenderMore(more))
  {
    if more != [] {
      var m := more[0];
      VisibleMore(more[1..]);
      VisibleAppend(Blanked(m + "\r"), MoreText(more[1..]));
      VisibleBlanked(m + "\r");
      VisibleAppend(m, "\r");
      VisibleAppend(m + CRLF, RenderMore(more[1..]));
      VisibleAppend(m, CRLF);
      assert Visible("\r") == "" && CRLF[..1] == "\r" && Visible(CRLF) == "";
    }
  }

  /** A folded field agrees with what was written up to white space. */
  lemma FoldedUpToSpace(f: Field)
    ensures Visible(H.Line(EntryOf(f))) == Visible(Render(f))
  {
    assert CRLF[..1] == "\r" && Visible("\r") == "" && Visible(CRLF) == "";
    hide Visible, MoreText, RenderMore;
    var head := f.tag + ": " + f.first;
    VisibleMore(f.more);
    assert H.Line(EntryOf(f)) == head + MoreText(f.more);
    VisibleAppend(head, MoreText(f.more));
    assert Render(f) == head + (CRLF + RenderMore(f.more));
    VisibleAppend(head, CRLF + RenderMore(f.more));
    VisibleAppend(CRLF, RenderMore(f.more));
    assert "" + Visible(RenderMore(f.more)) == Visible(RenderMore(f.more));
  }
}
