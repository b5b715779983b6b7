// The header scanner: its rules as languages, the longest-match choice between them, and the actions
// with their start conditions.
module HeaderScanner {
  import opened Common
  import opened Normalise

  datatype Token = TopLine(text: string) | Tag(text: string) | Body(text: string) | HeaderEnd

  datatype Condition = Initial | TagReady | BodyReady

  /** The rules in the order of the scanner definition; `Echo` is the scanner generator's default. */
  datatype Rule = TopLineRule | TagRule | BodyRule | MoreRule | EndRule | BlankRule | NewlineRule | EchoRule

  const CRLF := "\r\n"
  const CLOSING := "\r\n.\r\n"

  function Rank(r: Rule): nat
  {
    match r
    case TopLineRule => 0
    case TagRule => 1
    case BodyRule => 2
    case MoreRule => 3
    case EndRule => 4
    case BlankRule => 5
    case NewlineRule => 6
    case EchoRule => 7
  }

  predicate OneLine(x: string)
  {
    forall k :: 0 <= k < |x| ==> x[k] != '\n'
  }

  predicate EndsCrlf(x: string)
  {
    2 <= |x| && x[|x| - 2..] == CRLF
  }

  predicate TagText(t: string)
  {
    && t != "" && IsAlpha(t[0])
    && forall k :: 0 <= k < |t| ==> IsAlpha(t[k]) || IsDigit(t[k]) || t[k] == '-'
  }

  /** The tag with its colon at `c`, then white space. */
  predicate TagLexeme(x: string, c: nat)
  {
    c < |x| && TagText(x[..c]) && x[c] == ':' && forall k :: c < k < |x| ==> IsSpace(x[k])
  }

  /** The lexemes of a rule, as its regular expression says. */
  predicate InLanguage(r: Rule, x: string)
  {
    match r
    case TopLineRule => 7 <= |x| && x[..4] == "From" && IsSpace(x[4]) && OneLine(x[5..|x| - 2]) && EndsCrlf(x)
    case TagRule => exists c :: 0 <= c < |x| && TagLexeme(x, c)
    case BodyRule => EndsCrlf(x) && (OneLine(x[..|x| - 2]) || (|x| == 3 && IsSpace(x[0])))
    case MoreRule => x != "" && IsSpace(x[0]) && OneLine(x[1..])
    case EndRule => x == CLOSING
    case BlankRule => x == " " || x == "\t"
    case NewlineRule => x == "\n"
    case EchoRule => |x| == 1
  }

  /** In which start conditions, and where on a line, a rule is tried. */
  predicate Active(r: Rule, c: Condition, bol: bool)
  {
    match r
    case TopLineRule => c == Initial && bol
    case TagRule => c != BodyReady && bol
    case BodyRule => c == BodyReady
    case MoreRule => c != BodyReady && bol
    case EndRule => c != BodyReady
    case _ => true
  }

  predicate Matches(r: Rule, c: Condition, bol: bool, input: string, n: nat)
  {
    1 <= n <= |input| && Active(r, c, bol) && InLanguage(r, input[..n])
  }

  /** The match that is taken: the longest, and of equally long ones the first in the definition. */
  ghost predicate Taken(r: Rule, c: Condition, bol: bool, input: string, n: nat)
  {
    && Matches(r, c, bol, input, n)
    && forall q: Rule, k: nat :: Matches(q, c, bol, input, k) ==> k < n || (k == n && Rank(r) <= Rank(q))
  }

  function LongestUpTo(r: Rule, c: Condition, bol: bool, input: string, n: nat): (k: nat)
    requires n <= |input|
    ensures k <= n && (k > 0 ==> Matches(r, c, bol, input, k))
    ensures forall j :: k < j <= n ==> !Matches(r, c, bol, input, j)
  {
    hide InLanguage, Active;
    if n == 0 || Matches(r, c, bol, input, n) then n else LongestUpTo(r, c, bol, input, n - 1)
  }

  const RULES: seq<Rule> :=
    [TopLineRule, TagRule, BodyRule, MoreRule, EndRule, BlankRule, NewlineRule, EchoRule]

  /** The best match among the first `i` rules; length 0 if none matches. */
  function BestOf(i: nat, c: Condition, bol: bool, input: string): (b: (Rule, nat))
    requires i <= |RULES|
    ensures b.1 <= |input|
    ensures b.1 > 0 ==> Rank(b.0) < i && Matches(b.0, c, bol, input, b.1)
    ensures forall q: Rule, k: nat :: Rank(q) < i && Matches(q, c, bol, input, k)
              ==> k < b.1 || (k == b.1 && Rank(b.0) <= Rank(q))
  {
    if i == 0 then (EchoRule, 0)
    else
      hide InLanguage, Active;
      var before := BestOf(i - 1, c, bol, input);
      var n := LongestUpTo(RULES[i - 1], c, bol, input, |input|);
      assert forall q: Rule :: Rank(q) == i - 1 ==> q == RULES[i - 1];
      if n > before.1 then (RULES[i - 1], n) else before
  }

  function Best(c: Condition, bol: bool, input: string): (b: (Rule, nat))
    requires input != ""
    ensures Taken(b.0, c, bol, input, b.1)
  {
    assert Matches(EchoRule, c, bol, input, 1);
    assert forall q: Rule :: Rank(q) < |RULES|;
    BestOf(|RULES|, c, bol, input)
  }

  lemma TakenIsBest(r: Rule, c: Condition, bol: bool, input: string, n: nat)
    requires Taken(r, c, bol, input, n)
    ensures input != "" && Best(c, bol, input) == (r, n)
  {
    hide InLanguage, Active, Best;
    var (q, k) := Best(c, bol, input);
    assert Rank(q) == Rank(r);
  }

  // ----- actions

  function LastColon(x: string): (i: nat)
    ensures i <= |x|
  {
    if x == "" then 0 else if x[|x| - 1] == ':' then |x| - 1 else LastColon(x[..|x| - 1])
  }

  function Blanked(x: string): (y: string)
    ensures |y| == |x|
  {
    if x == "" then "" else Blanked(x[..|x| - 1]) + [if IsSpace(x[|x| - 1]) then ' ' else x[|x| - 1]]
  }

  function TokenOf(r: Rule, x: string): Option<Token>
    requires r == BodyRule ==> 2 <= |x|
  {
    match r
    case TopLineRule => Some(TopLine(x))
    case TagRule => Some(Tag(x[..LastColon(x)]))
    case BodyRule => Some(Body(x[..|x| - 2]))
    case MoreRule => Some(Body(Blanked(x)))
    case EndRule => Some(HeaderEnd)
    case _ => None
  }

  function ConditionAfter(r: Rule, c: Condition): Condition
  {
    match r
    case TagRule => BodyReady
    case BodyRule => Initial
    case MoreRule => TagReady
    case NewlineRule => Initial
    case _ => c
  }

  /** The tokens of the input, from a start condition on, at the beginning of a line or not. */
  function Tokens(c: Condition, bol: bool, input: string): seq<Token>
    decreases |input|
  {
    if input == "" then []
    else
      var (r, n) := Best(c, bol, input);
      var x := input[..n];
      var rest := Tokens(ConditionAfter(r, c), x[n - 1] == '\n', input[n..]);
      match TokenOf(r, x)
      case Some(t) => [t] + rest
      case None => rest
  }

  /** One step of the scanner when the match is known. */
  lemma TokensStep(r: Rule, c: Condition, bol: bool, input: string, n: nat)
    requires Taken(r, c, bol, input, n)
    ensures 1 <= n <= |input| && (r == BodyRule ==> 2 <= n)
    ensures var rest := Tokens(ConditionAfter(r, c), input[n - 1] == '\n', input[n..]);
      Tokens(c, bol, input) == match TokenOf(r, input[..n]) case Some(t) => [t] + rest case None => rest
  {
    hide Best;
    TakenIsBest(r, c, bol, input, n);
  }

  lemma NoTokens(c: Condition, bol: bool, input: string)
    ensures input == "" ==> Tokens(c, bol, input) == []
  {
  }

  // ----- the program's scanner object

  /** The continuation rule's loop: every white space character becomes a blank. */
  method BlankOut(yytext: array<char>)
    modifies yytext
    ensures yytext[..] == Blanked(old(yytext[..]))
  {
    ghost var before := yytext[..];
    var i := 0;
    while i < yytext.Length
      invariant 0 <= i <= yytext.Length
      invariant yytext[..i] == Blanked(before[..i])
      invariant forall k :: i <= k < yytext.Length ==> yytext[k] == before[k]
    {
      assert before[..i + 1][..i] == before[..i];
      if IsSpace(yytext[i]) {
        yytext[i] := ' ';
      }
      assert yytext[..i + 1] == yytext[..i] + [yytext[i]];
      i := i + 1;
    }
    assert yytext[..i] == yytext[..] && before[..i] == before;
  }

  class Scanner {
    const input: string
    var pos: nat
    var condition: Condition
    var bol: bool

    constructor (input: string)
      ensures this.input == input && Valid() && Pending() == Tokens(Initial, true, input)
    {
      this.input := input;
      pos, condition, bol := 0, Initial, true;
      new;
      assert input[0..] == input;
    }

    predicate Valid()
      reads this
    {
      pos <= |input|
    }

    /** The tokens still to come. */
    function Pending(): seq<Token>
      requires Valid()
      reads this
    {
      Tokens(condition, bol, input[pos..])
    }

    /** The action of a rule on its lexeme. */
    method Act(r: Rule, yytext: string) returns (t: Option<Token>)
      requires r == BodyRule ==> 2 <= |yytext|
      modifies this`condition
      ensures t == TokenOf(r, yytext) && condition == ConditionAfter(r, old(condition))
    {
      match r {
        case TopLineRule =>
          t := Some(TopLine(yytext));
        case TagRule =>
          t := Some(Tag(yytext[..LastColon(yytext)]));
          condition := BodyReady;
        case BodyRule =>
          t := Some(Body(yytext[..|yytext| - 2]));
          condition := Initial;
        case MoreRule =>
          var buffer := new char[|yytext|](k requires 0 <= k < |yytext| => yytext[k]);
          assert buffer[..] == yytext;
          BlankOut(buffer);
          t := Some(Body(buffer[..]));
          condition := TagReady;
        case EndRule =>
          t := Some(HeaderEnd);
        case NewlineRule =>
          t := None;
          condition := Initial;
        case _ =>
          t := None;
      }
    }

    /** The next token; `None` at the end of the input. */
    method Lex() returns (t: Option<Token>)
      requires Valid()
      modifies this`pos, this`condition, this`bol
      ensures Valid() && pos >= old(pos) && (t.Some? ==> pos > old(pos))
      ensures old(Pending()) == match t case Some(token) => [token] + Pending() case None => []
    {
      hide Tokens, Best, Taken, TokenOf, ConditionAfter, Matches;
      t := None;
      while pos < |input| && t.None?
        invariant Valid() && pos >= old(pos) && (t.Some? ==> pos > old(pos))
        invariant old(Pending()) == match t case Some(token) => [token] + Pending() case None => Pending()
        decreases |input| - pos
      {
        ghost var rest := input[pos..];
        var (r, n) := Best(condition, bol, input[pos..]);
        TokensStep(r, condition, bol, rest, n);
        assert rest[n..] == input[pos + n..];
        var yytext := input[pos..][..n];
        t := Act(r, yytext);
        bol := yytext[n - 1] == '\n';
        pos := pos + n;
      }
      NoTokens(condition, bol, input[pos..]);
    }
  }
}
