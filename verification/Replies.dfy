// The numbers and texts the mailbox scan takes out of server replies.
module Replies {
  import opened Normalise

  /** The number at the start of a text, as `atoi` reads it: white space, a sign, digits. */
  function Digits(s: string, value: nat): nat
    decreases |s|
  {
    if s == "" || !IsDigit(s[0]) then value else Digits(s[1..], 10 * value + (s[0] - '0') as nat)
  }

  function SkipSpace(s: string): (t: string)
    ensures |t| <= |s| && (t != "" ==> !IsSpace(t[0]))
  {
    if s == "" || !IsSpace(s[0]) then s else SkipSpace(s[1..])
  }

  function Atoi(s: string): int
  {
    var t := SkipSpace(s);
    if t != "" && t[0] == '-' then 0 - Digits(t[1..], 0)
    else if t != "" && t[0] == '+' then Digits(t[1..], 0)
    else Digits(t, 0)
  }

  function FirstWord(s: string): string
  {
    if s == "" || IsSpace(s[0]) then "" else [s[0]] + FirstWord(s[1..])
  }

  function SkipWord(s: string): string
  {
    if s == "" || IsSpace(s[0]) then s else SkipWord(s[1..])
  }

  /** Two extractions into the same variable: without a second word the first one stays. */
  function SecondWord(s: string): string
  {
    var t := SkipSpace(s);
    var u := SkipSpace(SkipWord(t));
    if u == "" then FirstWord(t) else FirstWord(u)
  }

  function AfterLast(s: string, c: char): string
  {
    if s == "" then ""
    else if s[|s| - 1] == c then ""
    else AfterLast(s[..|s| - 1], c) + [s[|s| - 1]]
  }

  /** The text behind the first newline, or all of it. */
  function AfterFirstLine(s: string): string
  {
    if exists k :: 0 <= k < |s| && s[k] == '\n' then DropLine(s) else s
  }

  function DropLine(s: string): string
  {
    if s == "" then "" else if s[0] == '\n' then s[1..] else DropLine(s[1..])
  }

  /** For a reply of one status line and a text: exactly the text. */
  lemma {:induction false} AfterStatusLine(line: string, text: string)
    requires forall k :: 0 <= k < |line| ==> line[k] != '\n'
    ensures AfterFirstLine(line + "\n" + text) == text
  {
    var s := line + "\n" + text;
    assert s[|line|] == '\n';
    DropLineIs(line, text);
  }

  lemma {:induction false} DropLineIs(line: string, text: string)
    requires forall k :: 0 <= k < |line| ==> line[k] != '\n'
    ensures DropLine(line + "\n" + text) == text
  {
    var s := line + "\n" + text;
    if line == "" {
      assert s[1..] == text;
    } else {
      assert s[1..] == line[1..] + "\n" + text;
      DropLineIs(line[1..], text);
    }
  }

  // ----- numbers are read as they are written

  function Decimal(n: nat): (s: string)
    ensures s != ""
  {
    (if n < 10 then "" else Decimal(n / 10)) + ["0123456789"[n % 10]]
  }

  lemma {:induction false} DecimalStarts(n: nat)
    ensures IsDigit(Decimal(n)[0])
    ensures forall c :: c in Decimal(n) ==> '0' <= c <= '9'
  {
    if n >= 10 {
      DecimalStarts(n / 10);
    }
  }

  lemma OneDigit(d: nat, rest: string, value: nat)
    requires d < 10
    ensures Digits(["0123456789"[d]] + rest, value) == Digits(rest, 10 * value + d)
  {
    var s := ["0123456789"[d]] + rest;
    assert s[1..] == rest;
    assert s[0] == '0' + d as char;
  }

  lemma DecimalIs(n: nat)
    ensures Decimal(n) == (if n < 10 then "" else Decimal(n / 10)) + ["0123456789"[n % 10]]
  {
  }

  lemma Assoc(a: string, b: string, c: string)
    ensures (a + b) + c == a + (b + c)
  {
  }

  lemma {:induction false} DigitsRead(n: nat, rest: string)
    ensures Digits(Decimal(n) + rest, 0) == Digits(rest, n)
  {
    hide *;
    var last := ["0123456789"[n % 10]];
    DecimalIs(n);
    if n < 10 {
      OneDigit(n, rest, 0);
      assert "" + last == last;
    } else {
      Assoc(Decimal(n / 10), last, rest);
      DigitsRead(n / 10, last + rest);
      OneDigit(n % 10, rest, n / 10);
    }
  }

  predicate NoDigitFirst(s: string)
  {
    s != "" ==> !('0' <= s[0] <= '9')
  }

  predicate AllSpace(s: string)
  {
    forall k :: 0 <= k < |s| ==> IsSpace(s[k])
  }

  lemma AtoiBehind(space: string, t: string)
    requires AllSpace(space) && t != "" && !IsSpace(t[0])
    ensures Atoi(space + t)
            == if t[0] == '-' then 0 - Digits(t[1..], 0) else if t[0] == '+' then Digits(t[1..], 0) else Digits(t, 0)
  {
    hide Digits, SkipSpace;
    SkipSpaces(space, t);
  }

  lemma DigitsEnd(n: nat, rest: string)
    requires NoDigitFirst(rest)
    ensures Digits(rest, n) == n
  {
  }

  lemma SignedFirst(sign: char, t: string)
    ensures ([sign] + t)[0] == sign && ([sign] + t)[1..] == t
  {
  }

  lemma NumberStarts(n: nat, rest: string)
    ensures Decimal(n) + rest != "" && '0' <= (Decimal(n) + rest)[0] <= '9'
  {
    DecimalStarts(n);
    assert (Decimal(n) + rest)[0] == Decimal(n)[0];
  }

  /** A written number is read back, up to the first character that is no digit, with its sign and
      behind any white space. */
  lemma NumberRead(space: string, n: nat, rest: string)
    requires AllSpace(space) && NoDigitFirst(rest)
    ensures Atoi(space + (Decimal(n) + rest)) == n
    ensures Atoi(space + ("+" + (Decimal(n) + rest))) == n
    ensures Atoi(space + ("-" + (Decimal(n) + rest))) == 0 - n
  {
    hide Atoi, Digits, Decimal, NoDigitFirst, AllSpace;
    var t := Decimal(n) + rest;
    DigitsRead(n, rest);
    DigitsEnd(n, rest);
    NumberStarts(n, rest);
    SignedFirst('+', t);
    SignedFirst('-', t);
    AtoiBehind(space, t);
    AtoiBehind(space, "+" + t);
    AtoiBehind(space, "-" + t);
  }

  lemma {:induction false} SkipSpaces(space: string, t: string)
    requires AllSpace(space) && (t != "" ==> !IsSpace(t[0]))
    ensures SkipSpace(space + t) == t
  {
    if space == "" {
      assert space + t == t;
    } else {
      assert (space + t)[1..] == space[1..] + t;
      SkipSpaces(space[1..], t);
    }
  }

  // ----- words

  predicate IsWord(s: string)
  {
    s != "" && forall k :: 0 <= k < |s| ==> !IsSpace(s[k])
  }

  predicate WordEnds(rest: string)
  {
    rest != "" ==> IsSpace(rest[0])
  }

  lemma {:induction false} WordRead(word: string, rest: string)
    requires (forall k :: 0 <= k < |word| ==> !IsSpace(word[k])) && WordEnds(rest)
    ensures FirstWord(word + rest) == word && SkipWord(word + rest) == rest
  {
    if word == "" {
      assert word + rest == rest;
    } else {
      assert (word + rest)[1..] == word[1..] + rest;
      WordRead(word[1..], rest);
    }
  }

  lemma SecondWordIs(s: string, second: string)
    requires !WordEnds(s) && FirstWord(SkipSpace(SkipWord(s))) == second != ""
    ensures SecondWord(s) == second
  {
    hide FirstWord, SkipWord;
    assert SkipSpace(s) == s;
    if SkipSpace(SkipWord(s)) == "" {
      NoWord();
    }
  }

  lemma NoWord()
    ensures FirstWord("") == ""
  {
  }

  /** The second of two words, however they are spaced. */
  lemma SecondWordRead(first: string, space: string, second: string, rest: string)
    requires IsWord(first) && IsWord(second) && WordEnds(rest) && space != "" && AllSpace(space)
    ensures SecondWord(first + (space + (second + rest))) == second
  {
    var tail := second + rest;
    assert tail[0] == second[0] && (space + tail)[0] == space[0] && (first + (space + tail))[0] == first[0];
    hide FirstWord, SkipWord, SkipSpace, SecondWord;
    WordRead(first, space + tail);
    SkipSpaces(space, tail);
    WordRead(second, rest);
    SecondWordIs(first + (space + tail), second);
  }

  lemma {:induction false} AfterLastRead(a: string, c: char, b: string)
    requires c !in b
    ensures AfterLast(a + ([c] + b), c) == b
  {
    var s := a + ([c] + b);
    if b != "" {
      var n := |b| - 1;
      assert s[..|s| - 1] == a + ([c] + b[..n]);
      AfterLastRead(a, c, b[..n]);
    }
  }

  /** A single word is taken twice. */
  lemma OnlyWordRead(word: string, space: string)
    requires IsWord(word) && AllSpace(space)
    ensures SecondWord(word + space) == word
  {
    assert (word + space)[0] == word[0];
    WordRead(word, space);
    SkipSpaces("", word + space);
    SkipSpaces(space, "");
    assert "" + (word + space) == word + space && space + "" == space;
    hide FirstWord, SkipWord, SkipSpace;
  }

  /** Without the character, and without a newline, all of the text is taken. */
  lemma {:induction false} AllTaken(s: string, c: char)
    ensures c !in s ==> AfterLast(s, c) == s
    ensures '\n' !in s ==> AfterFirstLine(s) == s
  {
    if s != "" {
      AllTaken(s[..|s| - 1], c);
    }
  }

  // ----- the two replies with numbers

  lemma DecimalIsWord(n: nat)
    ensures IsWord(Decimal(n)) && ' ' !in Decimal(n)
  {
    DecimalStarts(n);
    assert forall k :: 0 <= k < |Decimal(n)| ==> Decimal(n)[k] in Decimal(n);
  }

  /** The reply to STAT announces its first number. */
  lemma StatRead(n: nat, rest: string)
    requires WordEnds(rest)
    ensures Atoi(SecondWord("+OK " + (Decimal(n) + rest))) == n
  {
    DecimalIsWord(n);
    assert "+OK " == "+OK" + " " && IsWord("+OK") && AllSpace(" ") && AllSpace("") && NoDigitFirst("");
    hide *;
    Assoc("+OK", " ", Decimal(n) + rest);
    SecondWordRead("+OK", " ", Decimal(n), rest);
    NumberRead("", n, "");
    assert "" + (Decimal(n) + "") == Decimal(n);
  }

  lemma NotIn(a: string, b: string, c: char)
    requires c !in a && c !in b
    ensures c !in a + b
  {
  }

  /** The reply to LIST ends in the size. */
  lemma ListRead(i: nat, size: nat, rest: string)
    requires ' ' !in rest && NoDigitFirst(rest)
    ensures Atoi(AfterLast("+OK " + (Decimal(i) + (" " + (Decimal(size) + rest))), ' ')) == size
  {
    DecimalIsWord(size);
    assert AllSpace("");
    hide *;
    var tail := Decimal(size) + rest;
    Assoc("+OK ", Decimal(i), " " + tail);
    NotIn(Decimal(size), rest, ' ');
    AfterLastRead("+OK " + Decimal(i), ' ', tail);
    NumberRead("", size, rest);
    assert "" + tail == tail;
  }
}
