// The header parser: the grammar, and the program's parser proved to accept exactly it and to add
// the entries it derives.
module HeaderParser {
  import opened Common
  import H = Header
  import opened HeaderScanner

  type Entry = H.Entry

  // ----- the grammar

  predicate AllBodies(ts: seq<Token>)
  {
    forall t :: t in ts ==> t.Body?
  }

  function Concat(bodies: seq<Token>): string
    requires AllBodies(bodies)
  {
    if bodies == [] then "" else Concat(bodies[..|bodies| - 1]) + bodies[|bodies| - 1].text
  }

  /** entry: HEADER_END, or TAG and one or more BODY. */
  predicate IsEntry(ts: seq<Token>, es: seq<Entry>)
  {
    || (ts == [HeaderEnd] && es == [])
    || (2 <= |ts| && ts[0].Tag? && AllBodies(ts[1..]) && es == [H.Entry(ts[0].text, Concat(ts[1..]))])
  }

  /** header: nothing, or a header and an entry. */
  ghost predicate Derives(ts: seq<Token>, es: seq<Entry>)
    decreases |ts|
  {
    || (ts == [] && es == [])
    || exists k, j :: 0 <= k < |ts| && 0 <= j <= |es| && Derives(ts[..k], es[..j]) && IsEntry(ts[k..], es[j..])
  }

  // ----- the parser's states

  datatype Partial = Between | HasTag(tag: string) | HasBody(tag: string, body: string)

  /** The state after shifting the first token, if there is one. */
  function Shifted(p: Partial, t: Token): Option<Partial>
  {
    match (p, t)
    case (Between, Tag(t)) => Some(HasTag(t))
    case (Between, HeaderEnd) => Some(Between)
    case (HasTag(t), Body(b)) => Some(HasBody(t, b))
    case (HasBody(t, b), Body(c)) => Some(HasBody(t, b + c))
    case _ => None
  }

  /** The entries of the remaining tokens, or nothing on a syntax error. */
  function Continue(p: Partial, ts: seq<Token>): Option<seq<Entry>>
    decreases |ts|, if p.HasBody? then 1 else 0
  {
    if p.HasBody? && (ts == [] || !ts[0].Body?) then
      match Continue(Between, ts)
      case Some(es) => Some([H.Entry(p.tag, p.body)] + es)
      case None => None
    else if ts == [] then
      if p.Between? then Some([]) else None
    else
      match Shifted(p, ts[0])
      case Some(q) => Continue(q, ts[1..])
      case None => None
  }

  /** The tokens read so far of an unfinished entry. */
  predicate Unfinished(p: Partial, part: seq<Token>)
  {
    match p
    case Between => part == []
    case HasTag(t) => part == [Tag(t)]
    case HasBody(t, b) => 2 <= |part| && part[0] == Tag(t) && AllBodies(part[1..]) && Concat(part[1..]) == b
  }

  lemma DerivesOneMore(front: seq<Token>, es: seq<Entry>, part: seq<Token>, more: seq<Entry>)
    requires Derives(front, es) && IsEntry(part, more)
    ensures Derives(front + part, es + more)
  {
    var ts, all := front + part, es + more;
    assert ts[..|front|] == front && ts[|front|..] == part;
    assert all[..|es|] == es && all[|es|..] == more;
  }

  lemma UnfinishedStep(p: Partial, part: seq<Token>, b: Token)
    requires b.Body? && Unfinished(p, part)
    ensures p.HasTag? ==> Unfinished(HasBody(p.tag, b.text), part + [b])
    ensures p.HasBody? ==> Unfinished(HasBody(p.tag, p.body + b.text), part + [b])
  {
    if p != Between {
      assert (part + [b])[1..] == part[1..] + [b];
      assert (part[1..] + [b])[..|part| - 1] == part[1..];
      if p.HasTag? {
        assert [b][..0] == [];
      }
    }
  }

  /** What the parser accepts, the grammar derives. */
  lemma {:induction false} Sound(front: seq<Token>, done: seq<Entry>, p: Partial, part: seq<Token>, ts: seq<Token>)
    requires Derives(front, done) && Unfinished(p, part) && Continue(p, ts).Some?
    ensures Derives(front + part + ts, done + Continue(p, ts).value)
    decreases |ts|, if p.HasBody? then 1 else 0
  {
    hide Derives;
    if p.HasBody? && (ts == [] || !ts[0].Body?) {
      var e := H.Entry(p.tag, p.body);
      DerivesOneMore(front, done, part, [e]);
      Sound(front + part, done + [e], Between, [], ts);
      assert front + part + [] + ts == front + part + ts;
      assert done + [e] + Continue(Between, ts).value == done + Continue(p, ts).value;
    } else if ts == [] {
      assert front + part + ts == front && done + [] == done;
    } else {
      assert front + part + ts == front + (part + [ts[0]]) + ts[1..];
      match ts[0] {
        case Tag(t) =>
          assert part == [] && [] + [ts[0]] == [Tag(t)];
          Sound(front, done, HasTag(t), [Tag(t)], ts[1..]);
        case HeaderEnd =>
          DerivesOneMore(front, done, [HeaderEnd], []);
          assert part + [ts[0]] == [HeaderEnd] && done + [] == done;
          Sound(front + [HeaderEnd], done, Between, [], ts[1..]);
          assert front + [HeaderEnd] + [] + ts[1..] == front + part + ts;
        case Body(b) =>
          UnfinishedStep(p, part, ts[0]);
          var q := if p.HasTag? then HasBody(p.tag, b) else HasBody(p.tag, p.body + b);
          Sound(front, done, q, part + [ts[0]], ts[1..]);
        case TopLine(_) =>
      }
    }
  }

  lemma {:induction false} ReadBodies(t: string, b: string, bodies: seq<Token>)
    requires AllBodies(bodies)
    ensures Continue(HasBody(t, b), bodies) == Some([H.Entry(t, b + Concat(bodies))])
    decreases |bodies|
  {
    if bodies == [] {
      var none: seq<Token> := [];
      assert bodies == none && Continue(Between, none) == Some([]);
      assert b + Concat(bodies) == b;
      assert [H.Entry(t, b)] + [] == [H.Entry(t, b)];
    } else {
      var c := bodies[0].text;
      ReadBodies(t, b + c, bodies[1..]);
      ConcatFront(bodies);
      assert b + c + Concat(bodies[1..]) == b + Concat(bodies);
    }
  }

  lemma {:induction false} ConcatFront(bodies: seq<Token>)
    requires AllBodies(bodies) && bodies != []
    ensures Concat(bodies) == bodies[0].text + Concat(bodies[1..])
  {
    if |bodies| > 1 {
      var n := |bodies| - 1;
      ConcatFront(bodies[..n]);
      assert bodies[1..][..n - 1] == bodies[..n][1..] && bodies[1..][n - 1] == bodies[n];
      hide Concat;
      var first, middle, last := bodies[0].text, Concat(bodies[..n][1..]), bodies[n].text;
      assert (first + middle) + last == first + (middle + last);
    } else {
      assert bodies[..0] == [];
    }
  }

  lemma ReadEntry(ts: seq<Token>, es: seq<Entry>)
    requires IsEntry(ts, es)
    ensures Continue(Between, ts) == Some(es)
  {
    if ts == [HeaderEnd] {
      assert Continue(Between, ts[1..]) == Some([]);
    } else {
      ReadBodies(ts[0].text, ts[1].text, ts[2..]);
      ConcatFront(ts[1..]);
      assert ts[1..][1..] == ts[2..];
      assert Continue(HasTag(ts[0].text), ts[1..]) == Continue(HasBody(ts[0].text, ts[1].text), ts[2..]);
    }
  }

  /** A complete entry behind accepted tokens is accepted and adds its entries. */
  lemma {:induction false} ReadOneMore(p: Partial, ts: seq<Token>, more: seq<Token>, es: seq<Entry>)
    requires Continue(p, ts).Some? && IsEntry(more, es)
    ensures Continue(p, ts + more) == Some(Continue(p, ts).value + es)
    decreases |ts|, if p.HasBody? then 1 else 0
  {
    if p.HasBody? && (ts == [] || !ts[0].Body?) {
      ReadOneMore(Between, ts, more, es);
      assert !(ts + more)[0].Body?;
      var e := H.Entry(p.tag, p.body);
      assert [e] + (Continue(Between, ts).value + es) == [e] + Continue(Between, ts).value + es;
    } else if ts == [] {
      ReadEntry(more, es);
      assert [] + more == more && [] + es == es;
    } else {
      assert (ts + more)[1..] == ts[1..] + more;
      match ts[0] {
        case Tag(t) => ReadOneMore(HasTag(t), ts[1..], more, es);
        case HeaderEnd => ReadOneMore(Between, ts[1..], more, es);
        case Body(b) =>
          ReadOneMore(if p.HasTag? then HasBody(p.tag, b) else HasBody(p.tag, p.body + b), ts[1..], more, es);
        case TopLine(_) =>
      }
    }
  }

  lemma {:induction false} Complete(ts: seq<Token>, es: seq<Entry>)
    requires Derives(ts, es)
    ensures Continue(Between, ts) == Some(es)
    decreases |ts|
  {
    if ts != [] {
      var k, j :| 0 <= k < |ts| && 0 <= j <= |es| && Derives(ts[..k], es[..j]) && IsEntry(ts[k..], es[j..]);
      Complete(ts[..k], es[..j]);
      ReadOneMore(Between, ts[..k], ts[k..], es[j..]);
      assert ts == ts[..k] + ts[k..] && es == es[..j] + es[j..];
    }
  }

  /** The parser accepts exactly the grammar and returns the derived entries. */
  lemma ParsesIffDerives(ts: seq<Token>, es: seq<Entry>)
    ensures Continue(Between, ts) == Some(es) <==> Derives(ts, es)
  {
    assert Derives([], []);
    hide Derives, Continue;
    if Derives(ts, es) {
      Complete(ts, es);
    }
    if Continue(Between, ts) == Some(es) {
      Sound([], [], Between, [], ts);
      assert [] + [] + ts == ts && [] + es == es;
    }
  }

  /** The entries of a header text. */
  function ParseText(text: string): Option<seq<Entry>>
  {
    Continue(Between, Tokens(Initial, true, text))
  }

  // ----- how the program's parser ends

  /** `Rejected` is the exception thrown while adding an entry; a syntax error ends the program. */
  datatype Status = Parsed | Rejected | SyntaxError

  /** The first event decides: an entry is added as soon as the token behind it is no body, and `bad`
      are the entries whose addition throws. */
  function Ends(bad: Entry -> bool, p: Partial, ts: seq<Token>): Status
    decreases |ts|, if p.HasBody? then 1 else 0
  {
    if p.HasBody? && (ts == [] || !ts[0].Body?) then
      if bad(H.Entry(p.tag, p.body)) then Rejected else Ends(bad, Between, ts)
    else if ts == [] then
      if p.Between? then Parsed else SyntaxError
    else
      match Shifted(p, ts[0])
      case Some(q) => Ends(bad, q, ts[1..])
      case None => SyntaxError
  }

  function EndOf(bad: Entry -> bool, text: string): Status
  {
    Ends(bad, Between, Tokens(Initial, true, text))
  }

  predicate AllGood(bad: Entry -> bool, es: seq<Entry>)
  {
    forall e :: e in es ==> !bad(e)
  }

  lemma {:induction false} EndsParsed(bad: Entry -> bool, p: Partial, ts: seq<Token>)
    ensures Ends(bad, p, ts) == Parsed <==> Continue(p, ts).Some? && AllGood(bad, Continue(p, ts).value)
    decreases |ts|, if p.HasBody? then 1 else 0
  {
    if p.HasBody? && (ts == [] || !ts[0].Body?) {
      EndsParsed(bad, Between, ts);
      if Continue(p, ts).Some? {
        var e := H.Entry(p.tag, p.body);
        assert forall x :: x in Continue(p, ts).value <==> x == e || x in Continue(Between, ts).value;
      }
    } else if ts != [] && Shifted(p, ts[0]).Some? {
      EndsParsed(bad, Shifted(p, ts[0]).value, ts[1..]);
    }
  }

  lemma EndOfParsed(bad: Entry -> bool, text: string)
    ensures EndOf(bad, text) == Parsed <==> ParseText(text).Some? && AllGood(bad, ParseText(text).value)
  {
    EndsParsed(bad, Between, Tokens(Initial, true, text));
  }

  /** The first `k` tokens are complete and hold a bad entry. */
  predicate BadPart(bad: Entry -> bool, p: Partial, ts: seq<Token>, k: nat)
  {
    && k <= |ts| && (k < |ts| ==> !ts[k].Body?)
    && Continue(p, ts[..k]).Some? && !AllGood(bad, Continue(p, ts[..k]).value)
  }

  lemma BadPartShift(bad: Entry -> bool, p: Partial, ts: seq<Token>, k: nat)
    requires ts != [] && Shifted(p, ts[0]).Some? && 1 <= k <= |ts|
    ensures BadPart(bad, p, ts, k) <==> BadPart(bad, Shifted(p, ts[0]).value, ts[1..], k - 1)
  {
    assert ts[..k][1..] == ts[1..][..k - 1];
  }

  lemma BadPartReduce(bad: Entry -> bool, p: Partial, ts: seq<Token>, k: nat)
    requires p.HasBody? && (ts == [] || !ts[0].Body?)
    ensures BadPart(bad, p, ts, k) <==>
      if bad(H.Entry(p.tag, p.body)) then BadPart(_ => true, p, ts, k) else BadPart(bad, Between, ts, k)
  {
    if k <= |ts| && Continue(Between, ts[..k]).Some? {
      var e := H.Entry(p.tag, p.body);
      assert Continue(p, ts[..k]).value[0] == e;
      assert forall x :: x in Continue(p, ts[..k]).value <==> x == e || x in Continue(Between, ts[..k]).value;
    }
  }

  lemma {:induction false} EndsRejected(bad: Entry -> bool, p: Partial, ts: seq<Token>)
    ensures Ends(bad, p, ts) == Rejected <==> exists k :: BadPart(bad, p, ts, k)
    decreases |ts|, if p.HasBody? then 1 else 0
  {
    if p.HasBody? && (ts == [] || !ts[0].Body?) {
      EndsRejected(bad, Between, ts);
      forall k: nat { BadPartReduce(bad, p, ts, k); }
      var e := H.Entry(p.tag, p.body);
      assert Continue(p, ts[..0]) == Some([e] + []) && e in [e];
      assert bad(e) ==> BadPart(bad, p, ts, 0);
    } else if ts != [] && Shifted(p, ts[0]).Some? {
      EndsRejected(bad, Shifted(p, ts[0]).value, ts[1..]);
      forall k: nat | 1 <= k <= |ts| { BadPartShift(bad, p, ts, k); }
      assert !BadPart(bad, p, ts, 0);
      if j: nat :| BadPart(bad, Shifted(p, ts[0]).value, ts[1..], j) {
        assert BadPart(bad, p, ts, j + 1);
      }
    } else {
      assert !BadPart(bad, p, ts, 0);
    }
  }

  /** Some first tokens, up to one that is no body, are a header with a bad entry. */
  ghost predicate BadHeaderFirst(bad: Entry -> bool, ts: seq<Token>)
  {
    exists k, es :: 0 <= k <= |ts| && (k < |ts| ==> !ts[k].Body?) && Derives(ts[..k], es) && !AllGood(bad, es)
  }

  /** When the parser throws, when it succeeds, and that it ends the program otherwise, in terms of
      the grammar alone. */
  lemma EndsIff(bad: Entry -> bool, ts: seq<Token>)
    ensures Ends(bad, Between, ts) == Parsed <==> exists es :: Derives(ts, es) && AllGood(bad, es)
    ensures Ends(bad, Between, ts) == Rejected <==> BadHeaderFirst(bad, ts)
  {
    EndsParsed(bad, Between, ts);
    EndsRejected(bad, Between, ts);
    forall es { ParsesIffDerives(ts, es); }
    if BadHeaderFirst(bad, ts) {
      var k, es :| 0 <= k <= |ts| && (k < |ts| ==> !ts[k].Body?) && Derives(ts[..k], es) && !AllGood(bad, es);
      ParsesIffDerives(ts[..k], es);
      assert BadPart(bad, Between, ts, k);
    }
    if k: nat :| BadPart(bad, Between, ts, k) {
      ParsesIffDerives(ts[..k], Continue(Between, ts[..k]).value);
    }
  }

  // ----- single tokens

  /** A tag needs a body, a body a tag, and a mailbox separator line stands nowhere. */
  lemma SyntaxErrors(bad: Entry -> bool, t: string, u: string, rest: seq<Token>)
    ensures Ends(bad, Between, [Tag(t)]) == SyntaxError
    ensures Ends(bad, Between, [Tag(t), Tag(u)] + rest) == SyntaxError
    ensures Ends(bad, Between, [Tag(t), HeaderEnd] + rest) == SyntaxError
    ensures Ends(bad, Between, [Body(t)] + rest) == SyntaxError
    ensures Ends(bad, Between, [TopLine(t)] + rest) == SyntaxError
  {
    assert ([Tag(t), Tag(u)] + rest)[1..] == [Tag(u)] + rest && ([Tag(t), HeaderEnd] + rest)[1..] == [HeaderEnd] + rest;
  }

  /** An end mark between entries makes no difference. */
  lemma EndMarkIgnored(bad: Entry -> bool, rest: seq<Token>)
    ensures Continue(Between, [HeaderEnd] + rest) == Continue(Between, rest)
    ensures Ends(bad, Between, [HeaderEnd] + rest) == Ends(bad, Between, rest)
  {
    assert ([HeaderEnd] + rest)[1..] == rest;
  }

  // ----- the program's parser

  /** The entries the header refuses. */
  function Refused(ignoreTimeStamp: bool, validId: string -> bool): Entry -> bool
  {
    (e: Entry) => H.BadId(ignoreTimeStamp, validId, e.tag, e.body)
  }

  /** Reduce a finished entry when the next token is not another body. */
  method FinishEntry(p: Partial, body: bool, header: H.Header, ghost ts: seq<Token>, ghost added: seq<Entry>,
                     ghost before: seq<Entry>)
    returns (ok: bool, q: Partial, ghost more: seq<Entry>)
    requires body <==> ts != [] && ts[0].Body?
    requires header.Valid() && header.entries == before + added
    modifies header
    ensures header.size == old(header.size)
    ensures Prefixed(more, Continue(q, ts)) == Prefixed(added, Continue(p, ts)) && (q.HasBody? ==> body)
    ensures ok ==> header.Valid() && header.entries == before + more
    ensures var bad := Refused(header.ignoreTimeStamp, header.validId);
      Ends(bad, p, ts) == if ok then Ends(bad, q, ts) else Rejected
  {
    ok, q, more := true, p, added;
    if p.HasBody? && !body {
      Reduce(p, ts, added, Refused(header.ignoreTimeStamp, header.validId));
      hide Continue, Ends;
      ok := header.AddEntry(p.tag, p.body);
      more := added + [H.Entry(p.tag, p.body)];
      q := Between;
    }
  }

  method Parse(text: string, header: H.Header) returns (status: Status)
    requires header.Valid()
    modifies header
    ensures header.size == old(header.size)
    ensures status == EndOf(Refused(header.ignoreTimeStamp, header.validId), text)
    ensures status == Parsed ==>
        && header.Valid() && ParseText(text).Some?
        && header.entries == old(header.entries) + ParseText(text).value
  {
    hide Continue, Tokens, Ends;
    var scanner := new Scanner(text);
    ghost var bad := Refused(header.ignoreTimeStamp, header.validId);
    ghost var goal, before := ParseText(text), header.entries;
    ghost var added: seq<Entry> := [];
    PrefixedNothing(goal);
    var p := Between;
    while true
      invariant scanner.Valid() && fresh(scanner) && scanner.input == text
      invariant header.Valid() && header.size == old(header.size)
      invariant header.entries == before + added
      invariant goal == Prefixed(added, Continue(p, scanner.Pending()))
      invariant EndOf(bad, text) == Ends(bad, p, scanner.Pending())
      decreases |text| - scanner.pos
    {
      ghost var ts := scanner.Pending();
      var next := scanner.Lex();
      var ok: bool;
      ok, p, added := FinishEntry(p, next.Some? && next.value.Body?, header, ts, added, before);
      if !ok {
        return Rejected;
      }
      if next.None? {
        AtEnd(p, ts, bad);
        assert added + [] == added;
        return if p.Between? then Parsed else SyntaxError;
      }
      Shift(p, ts);
      EndShift(p, ts, bad);
      match (p, next.value) {
        case (Between, Tag(t)) => p := HasTag(t);
        case (Between, HeaderEnd) =>
        case (HasTag(t), Body(b)) => p := HasBody(t, b);
        case (HasBody(t, b), Body(c)) => p := HasBody(t, b + c);
        case _ => return SyntaxError;
      }
      assert ts[1..] == scanner.Pending();
    }
  }

  lemma PrefixedNothing(r: Option<seq<Entry>>)
    ensures Prefixed([], r) == r
  {
    match r {
      case Some(es) => assert [] + es == es;
      case None =>
    }
  }

  lemma Reduce(p: Partial, ts: seq<Token>, added: seq<Entry>, bad: Entry -> bool)
    requires p.HasBody? && (ts == [] || !ts[0].Body?)
    ensures Prefixed(added, Continue(p, ts)) == Prefixed(added + [H.Entry(p.tag, p.body)], Continue(Between, ts))
    ensures Ends(bad, p, ts) == if bad(H.Entry(p.tag, p.body)) then Rejected else Ends(bad, Between, ts)
  {
    if Continue(p, ts).Some? {
      var e := H.Entry(p.tag, p.body);
      assert added + ([e] + Continue(Between, ts).value) == added + [e] + Continue(Between, ts).value;
    }
  }

  lemma AtEnd(p: Partial, ts: seq<Token>, bad: Entry -> bool)
    requires ts == [] && !p.HasBody?
    ensures Continue(p, ts) == if p.Between? then Some([]) else None
    ensures Ends(bad, p, ts) == if p.Between? then Parsed else SyntaxError
  {
  }

  lemma Shift(p: Partial, ts: seq<Token>)
    requires ts != [] && (p.HasBody? ==> ts[0].Body?)
    ensures Continue(p, ts) ==
      match Shifted(p, ts[0]) case Some(q) => Continue(q, ts[1..]) case None => None
  {
  }

  lemma EndShift(p: Partial, ts: seq<Token>, bad: Entry -> bool)
    requires ts != [] && (p.HasBody? ==> ts[0].Body?)
    ensures Ends(bad, p, ts) ==
      match Shifted(p, ts[0]) case Some(q) => Ends(bad, q, ts[1..]) case None => SyntaxError
  {
  }

  function Prefixed(es: seq<Entry>, r: Option<seq<Entry>>): Option<seq<Entry>>
  {
    match r
    case Some(more) => Some(es + more)
    case None => None
  }
}
