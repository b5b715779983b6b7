// The mailbox scan as a function of the server: the commands issued, the messages judged, the memory
// of message-IDs and the result. Pop3.dfy proves that the program computes it.
module MailboxScan {
  import opened Common
  import H = Header
  import opened Rules
  import opened Verdict
  import W = Weeder
  import opened MailboxRun
  import opened HeaderParser
  import opened HeaderScanner
  import RoundTrip = HeaderRoundTrip
  import opened Replies

  datatype Command = Stat | List(n: int) | Top(n: int) | Dele(n: int)

  /** 0, GEN_FAILURE_FLAG, or the end of the program on a header with a syntax error. */
  datatype ScanResult = Done | Failed | Exited

  predicate Good(r: Option<string>)
  {
    r.Some? && r.value != "" && r.value[0] == '+'
  }

  /** An arbitrary server: which writes succeed, and what each read delivers. */
  datatype Server = Server(writes: nat -> bool, replies: nat -> Option<string>)

  /** Everything else a scan depends on. */
  datatype Setup = Setup(
    rx: Matcher, settings: Settings, testMode: bool, ignoreTimeStamp: bool, validId: string -> bool)

  // ----- one message

  /** The good reply to the request written as number `w` and answered by read `k`. */
  function Answer(v: Server, w: nat, k: nat): Option<string>
  {
    if v.writes(w) && Good(v.replies(k)) then v.replies(k) else None
  }

  /** What the server lets the scan see of a message. */
  datatype Look = NoSize | NoHeader | BadId | Unreadable | Message(mail: H.Mail)

  function HeaderLook(u: Setup, text: string, size: int): (x: Look)
    ensures !x.NoSize?
  {
    match EndOf(Refused(u.ignoreTimeStamp, u.validId), text)
    case Rejected => BadId
    case SyntaxError => Unreadable
    case Parsed =>
      EndOfParsed(Refused(u.ignoreTimeStamp, u.validId), text);
      Message(H.MailOf(u.settings.normal, ParseText(text).value, size))
  }

  /** A message asked for from write `w` and read `k` on, by LIST and then by TOP. */
  function LookAt(v: Server, u: Setup, w: nat, k: nat): Look
  {
    match Answer(v, w, k)
    case None => NoSize
    case Some(list) =>
      match Answer(v, w + 1, k + 1)
      case None => NoHeader
      case Some(top) => HeaderLook(u, AfterFirstLine(top), Atoi(AfterLast(list, ' ')))
  }

  /** The number of messages the server announces; negative if it does not. */
  function Announced(v: Server, w: nat, k: nat): int
  {
    match Answer(v, w, k)
    case None => -1
    case Some(text) => Atoi(SecondWord(text))
  }

  /** The request was written, and a reply that starts with '+' was read. */
  ghost predicate Replied(v: Server, w: nat, k: nat)
  {
    v.writes(w) && exists text :: v.replies(k) == Some(text) && text != "" && text[0] == '+'
  }

  /** What is seen of a message, in terms of the replies and the header grammar. */
  lemma LookIff(v: Server, u: Setup, w: nat, k: nat)
    ensures var x := LookAt(v, u, w, k);
      && (x == NoSize <==> !Replied(v, w, k))
      && (x == NoHeader <==> Replied(v, w, k) && !Replied(v, w + 1, k + 1))
    ensures Replied(v, w, k) && Replied(v, w + 1, k + 1) ==>
      var x, bad := LookAt(v, u, w, k), Refused(u.ignoreTimeStamp, u.validId);
      var ts := Tokens(Initial, true, AfterFirstLine(v.replies(k + 1).value));
      && (x.Message? <==> exists es :: Derives(ts, es) && AllGood(bad, es))
      && (x == BadId <==> BadHeaderFirst(bad, ts))
  {
    hide Ends, Derives, Tokens, AfterFirstLine, AllGood, BadHeaderFirst, AfterLast, Atoi, ParseText;
    if Replied(v, w, k) && Replied(v, w + 1, k + 1) {
      EndsIff(Refused(u.ignoreTimeStamp, u.validId), Tokens(Initial, true, AfterFirstLine(v.replies(k + 1).value)));
    }
  }

  /** The number of messages is announced by a good reply, as its first number. */
  lemma AnnouncedIs(v: Server, w: nat, k: nat, n: nat, rest: string)
    requires WordEnds(rest) && v.writes(w) && v.replies(k) == Some("+OK " + (Decimal(n) + rest))
    ensures Announced(v, w, k) == n
  {
    StatRead(n, rest);
    hide Atoi, SecondWord, Decimal;
    assert ("+OK " + (Decimal(n) + rest))[0] == '+';
  }

  lemma NothingAnnounced(v: Server, w: nat, k: nat)
    requires !Replied(v, w, k)
    ensures Announced(v, w, k) < 0
  {
  }

  /** A header written as RFC 822 says, in good replies to LIST and TOP, is seen entry by entry and with
      its size. */
  lemma RenderedIsSeen(v: Server, u: Setup, w: nat, k: nat, i: nat, size: nat, line: string,
                       fields: seq<RoundTrip.Field>)
    requires forall f :: f in fields ==> RoundTrip.GoodField(f)
    requires AllGood(Refused(u.ignoreTimeStamp, u.validId), RoundTrip.EntriesOf(fields))
    requires v.writes(w) && v.replies(k) == Some("+OK " + (Decimal(i) + (" " + (Decimal(size) + CRLF))))
    requires v.writes(w + 1) && OneLine(line)
    requires v.replies(k + 1) == Some("+OK" + line + "\n" + (RoundTrip.RenderAll(fields) + CLOSING))
    ensures LookAt(v, u, w, k) == Message(H.MailOf(u.settings.normal, RoundTrip.EntriesOf(fields), size))
  {
    hide EndOf, ParseText, AfterFirstLine, Atoi, AfterLast, Decimal;
    var text := RoundTrip.RenderAll(fields) + CLOSING;
    ListRead(i, size, CRLF);
    assert ("+OK " + (Decimal(i) + (" " + (Decimal(size) + CRLF))))[0] == '+';
    AfterStatusLine("+OK" + line, text);
    RoundTrip.ReadingInvertsRendering(fields);
    EndOfParsed(Refused(u.ignoreTimeStamp, u.validId), text);
    assert ("+OK" + line + "\n" + text)[0] == '+';
  }

  /** The ID of a message is the body of its last Message-Id field, however that is capitalised. */
  lemma {:induction false} IdSeen(normal: bool, fields: seq<RoundTrip.Field>, size: int, n: nat, tag: string,
                                  id: string)
    requires n < |fields| && fields[n] == RoundTrip.Field(tag, id, []) && SameNoCase(tag, "Message-Id")
    requires forall k :: n < k < |fields| ==> !SameNoCase(fields[k].tag, "Message-Id")
    ensures H.MailOf(normal, RoundTrip.EntriesOf(fields), size).id == id
  {
    hide SameNoCase;
    EntriesAt(fields);
    var es := RoundTrip.EntriesOf(fields);
    assert forall k :: n < k < |es| ==> es[k].tag == fields[k].tag;
    H.LastBodyIs(es, "Message-Id", n);
    assert id + "" == id;
  }

  lemma {:induction false} EntriesAt(fields: seq<RoundTrip.Field>)
    ensures |RoundTrip.EntriesOf(fields)| == |fields|
    ensures forall k :: 0 <= k < |fields| ==> RoundTrip.EntriesOf(fields)[k] == RoundTrip.EntryOf(fields[k])
  {
    hide RoundTrip.EntryOf;
    if fields != [] {
      EntriesAt(fields[1..]);
    }
  }

  const ID_FIELD := RoundTrip.Field("MESSAGE-ID", "<a@b>", [])
  const ID_TEXT := "MESSAGE-ID: <a@b>\r\n"

  lemma IdFieldIsGood()
    ensures RoundTrip.GoodField(ID_FIELD) && SameNoCase("MESSAGE-ID", "Message-Id")
  {
  }

  lemma IdFieldText()
    ensures RoundTrip.RenderAll([ID_FIELD]) == ID_TEXT
  {
    var f := ID_FIELD;
    assert [f][1..] == [] && RoundTrip.RenderAll([]) == "" && RoundTrip.RenderMore([]) == "";
    assert "MESSAGE-ID" + ": " + "<a@b>" + CRLF + "" == ID_TEXT;
    assert RoundTrip.Render(f) == ID_TEXT && ID_TEXT + "" == ID_TEXT;
  }

  /** A concrete message of one field, with its ID. */
  lemma MessageIdSeen(v: Server, u: Setup, w: nat, k: nat, size: nat)
    requires u.ignoreTimeStamp && v.writes(w) && v.writes(w + 1)
    requires v.replies(k) == Some("+OK " + (Decimal(1) + (" " + (Decimal(size) + CRLF))))
    requires v.replies(k + 1) == Some("+OK" + "\r" + "\n" + (ID_TEXT + CLOSING))
    ensures LookAt(v, u, w, k).Message? && LookAt(v, u, w, k).mail.id == "<a@b>"
  {
    IdFieldIsGood();
    IdFieldText();
    assert AllGood(Refused(u.ignoreTimeStamp, u.validId), RoundTrip.EntriesOf([ID_FIELD]));
    assert OneLine("\r");
    hide *;
    RenderedIsSeen(v, u, w, k, 1, size, "\r", [ID_FIELD]);
    IdSeen(u.settings.normal, [ID_FIELD], size, 0, "MESSAGE-ID", "<a@b>");
  }

  // ----- what the scan issues

  /** LIST and TOP for message `n`, and DELE exactly for the verdict 1 outside test mode. */
  function ForMessage(n: int, verdict: int, testMode: bool): seq<Command>
  {
    [List(n), Top(n)] + if verdict == 1 && !testMode then [Dele(n)] else []
  }

  function Issued(verdicts: seq<int>, testMode: bool): seq<Command>
  {
    if verdicts == [] then []
    else Issued(verdicts[..|verdicts| - 1], testMode) + ForMessage(|verdicts|, verdicts[|verdicts| - 1], testMode)
  }

  /** The commands for message `k + 1` stand behind those for the messages before it. */
  lemma {:induction false} IssuedAt(verdicts: seq<int>, testMode: bool, k: nat)
    requires k < |verdicts|
    ensures var before, all := Issued(verdicts[..k], testMode), Issued(verdicts, testMode);
      before + [List(k + 1), Top(k + 1)] + (if verdicts[k] == 1 && !testMode then [Dele(k + 1)] else []) <= all
    decreases |verdicts|
  {
    var n := |verdicts| - 1;
    if k < n {
      assert verdicts[..n][..k] == verdicts[..k];
      IssuedAt(verdicts[..n], testMode, k);
    } else {
      assert verdicts[..n] == verdicts[..k];
    }
  }

  /** No messages, no commands. */
  lemma IssuedNothing(testMode: bool)
    ensures Issued([], testMode) == []
  {
  }

  predicate Names(c: Command, n: int)
  {
    !c.Stat? && c.n == n
  }

  lemma IssuedLast(verdicts: seq<int>, testMode: bool)
    requires verdicts != []
    ensures var k := |verdicts| - 1;
      forall c :: c in Issued(verdicts, testMode) <==>
        c in Issued(verdicts[..k], testMode) || c in ForMessage(k + 1, verdicts[k], testMode)
  {
    hide ForMessage;
  }

  /** The commands name the messages examined so far. */
  lemma {:induction false} IssuedNames(verdicts: seq<int>, testMode: bool)
    ensures forall c :: c in Issued(verdicts, testMode) ==> !c.Stat? && 1 <= c.n <= |verdicts|
  {
    if verdicts != [] {
      IssuedNames(verdicts[..|verdicts| - 1], testMode);
      IssuedLast(verdicts, testMode);
      hide Issued;
    }
  }

  /** A message is deleted exactly when it was judged so, outside test mode. */
  lemma {:induction false} IssuedDeletes(verdicts: seq<int>, testMode: bool, n: int)
    ensures Dele(n) in Issued(verdicts, testMode) <==> 1 <= n <= |verdicts| && verdicts[n - 1] == 1 && !testMode
  {
    if verdicts != [] {
      IssuedDeletes(verdicts[..|verdicts| - 1], testMode, n);
      IssuedLast(verdicts, testMode);
      hide Issued;
    }
  }

  /** After DELE no later command of the scan names the same message. */
  ghost predicate DeletedIsGone(trace: seq<Command>)
  {
    forall i, j, n: int :: 0 <= i < j < |trace| && trace[i] == Dele(n) ==> !Names(trace[j], n)
  }

  lemma {:induction false} IssuedDeletedIsGone(verdicts: seq<int>, testMode: bool)
    ensures DeletedIsGone(Issued(verdicts, testMode))
  {
    if verdicts != [] {
      var k := |verdicts| - 1;
      var before, last := Issued(verdicts[..k], testMode), ForMessage(k + 1, verdicts[k], testMode);
      IssuedDeletedIsGone(verdicts[..k], testMode);
      IssuedNames(verdicts[..k], testMode);
      var trace := before + last;
      forall i, j, n: int | 0 <= i < j < |trace| && trace[i] == Dele(n)
        ensures !Names(trace[j], n)
      {
        if j >= |before| {
          assert Names(trace[j], k + 1);
          assert i < |before| ==> trace[i] in before;
        }
      }
    }
  }

  // ----- the scan

  /** The requests for message `n`. */
  function Requests(n: int, x: Look): seq<Command>
  {
    if x.NoSize? then [List(n)] else [List(n), Top(n)]
  }

  /** How a look ends the scan; it goes on after a message. */
  function ResultOf(x: Look): ScanResult
  {
    match x
    case Message(_) => Done
    case Unreadable => Exited
    case _ => Failed
  }

  datatype Session = Session(trace: seq<Command>, mails: seq<H.Mail>, memory: seq<string>, result: ScanResult)

  /** Scan messages `i` to `n` from write `w` and read `k` on. */
  ghost function ScanFrom(v: Server, u: Setup, seen: seq<string>, w: nat, k: nat, i: int, n: int): Session
    decreases n - i
  {
    if i > n then Session([], [], seen, Done)
    else
      var x := LookAt(v, u, w, k);
      match x
      case Message(m) =>
        var commands := ForMessage(i, Judge(u.rx, u.settings, m, W.IsDuplicate(u.settings, seen, m)), u.testMode);
        var rest := ScanFrom(v, u, W.Remember(u.settings, seen, m), w + |commands|, k + 2, i + 1, n);
        rest.(trace := commands + rest.trace, mails := [m] + rest.mails)
      case _ => Session(Requests(i, x), [], seen, ResultOf(x))
  }

  ghost function WholeScan(v: Server, u: Setup, seen: seq<string>, w: nat, k: nat): Session
  {
    var n := Announced(v, w, k);
    if n < 0 then Session([Stat], [], seen, Failed)
    else
      var rest := ScanFrom(v, u, seen, w + 1, k + 1, 1, n);
      rest.(trace := [Stat] + rest.trace)
  }

  // ----- the scan in terms of the whole run

  /** The verdicts of a run, one for each message. */
  ghost function Verdicts(rx: Matcher, s: Settings, seen: seq<string>, mails: seq<H.Mail>): (v: seq<int>)
    ensures |v| == |mails|
    ensures forall k :: 0 <= k < |mails| ==> v[k] == VerdictAt(rx, s, seen, mails, k)
  {
    if mails == [] then []
    else
      var n := |mails| - 1;
      assert forall k :: 0 <= k < n ==> mails[..n][..k] == mails[..k];
      Verdicts(rx, s, seen, mails[..n]) + [VerdictAt(rx, s, seen, mails, n)]
  }

  /** The commands issued for the messages of a run. */
  ghost function Commands(u: Setup, seen: seq<string>, mails: seq<H.Mail>): seq<Command>
  {
    Issued(Verdicts(u.rx, u.settings, seen, mails), u.testMode)
  }

  /** One more message in the run. */
  lemma Examined(u: Setup, seen: seq<string>, mails: seq<H.Mail>, m: H.Mail)
    ensures var s := u.settings; var now := SeenAfter(s, seen, mails);
      && SeenAfter(s, seen, mails + [m]) == W.Remember(s, now, m)
      && Commands(u, seen, mails + [m]) == Commands(u, seen, mails)
           + ForMessage(|mails| + 1, Judge(u.rx, s, m, W.IsDuplicate(s, now, m)), u.testMode)
  {
    hide Judge;
    var all := mails + [m];
    assert all[..|mails|] == mails;
    var v := Verdicts(u.rx, u.settings, seen, all);
    assert v[..|mails|] == Verdicts(u.rx, u.settings, seen, mails);
  }

  /** Where a scan stands after the messages `mails`, counted from write `w` and read `k`. */
  ghost function Next(v: Server, u: Setup, seen: seq<string>, w: nat, k: nat, mails: seq<H.Mail>): Look
  {
    LookAt(v, u, w + |Commands(u, seen, mails)|, k + 2 * |mails|)
  }

  /** Every message of `mails` is what the server showed at its place. */
  ghost predicate AllSeen(v: Server, u: Setup, seen: seq<string>, w: nat, k: nat, mails: seq<H.Mail>)
  {
    forall j :: 0 <= j < |mails| ==> Next(v, u, seen, w, k, mails[..j]) == Message(mails[j])
  }

  /** The session of scanning `n` messages is explained by the messages it judged. */
  ghost predicate Explained(v: Server, u: Setup, seen: seq<string>, w: nat, k: nat, n: nat, q: Session)
  {
    var stop := Next(v, u, seen, w, k, q.mails);
    && |q.mails| <= n && (|q.mails| < n ==> !stop.Message?)
    && AllSeen(v, u, seen, w, k, q.mails)
    && q.trace == Commands(u, seen, q.mails) + (if |q.mails| == n then [] else Requests(|q.mails| + 1, stop))
    && q.memory == SeenAfter(u.settings, seen, q.mails)
    && q.result == (if |q.mails| == n then Done else ResultOf(stop))
  }

  lemma OneMoreSeen(v: Server, u: Setup, seen: seq<string>, w: nat, k: nat, front: seq<H.Mail>, m: H.Mail)
    requires AllSeen(v, u, seen, w, k, front) && Next(v, u, seen, w, k, front) == Message(m)
    ensures AllSeen(v, u, seen, w, k, front + [m])
  {
    hide Next;
    var all := front + [m];
    forall j | 0 <= j < |all|
      ensures Next(v, u, seen, w, k, all[..j]) == Message(all[j])
    {
      assert all[..j] == front[..j];
      assert front[..|front|] == front;
    }
  }

  /** Scanning on after `front`. */
  ghost function After(v: Server, u: Setup, seen: seq<string>, w: nat, k: nat, n: nat, front: seq<H.Mail>): Session
  {
    ScanFrom(v, u, SeenAfter(u.settings, seen, front), w + |Commands(u, seen, front)|, k + 2 * |front|, |front| + 1, n)
  }

  /** `q` with the commands for `front` and the messages `front` before it. */
  ghost function Behind(u: Setup, seen: seq<string>, front: seq<H.Mail>, q: Session): Session
  {
    q.(trace := Commands(u, seen, front) + q.trace, mails := front + q.mails)
  }

  lemma AfterOneMore(v: Server, u: Setup, seen: seq<string>, w: nat, k: nat, n: nat, front: seq<H.Mail>, m: H.Mail)
    requires |front| < n && Next(v, u, seen, w, k, front) == Message(m)
    ensures var all := front + [m];
      Behind(u, seen, front, After(v, u, seen, w, k, n, front)) == Behind(u, seen, all, After(v, u, seen, w, k, n, all))
  {
    hide Judge, LookAt, SeenAfter, Commands, ForMessage, W.IsDuplicate, W.Remember;
    var all := front + [m];
    Examined(u, seen, front, m);
    var rest, later := After(v, u, seen, w, k, n, front), After(v, u, seen, w, k, n, all);
    assert front + rest.mails == all + later.mails;
    assert Commands(u, seen, front) + rest.trace == Commands(u, seen, all) + later.trace;
  }

  lemma StopExplained(v: Server, u: Setup, seen: seq<string>, w: nat, k: nat, n: nat, front: seq<H.Mail>)
    requires |front| <= n && AllSeen(v, u, seen, w, k, front)
    requires |front| == n || !Next(v, u, seen, w, k, front).Message?
    ensures Explained(v, u, seen, w, k, n, Behind(u, seen, front, After(v, u, seen, w, k, n, front)))
  {
    hide LookAt, SeenAfter, Commands;
    assert front + [] == front && Commands(u, seen, front) + [] == Commands(u, seen, front);
  }

  /** What is left after `front` completes it to an explained session. */
  lemma {:induction false} RestExplained(v: Server, u: Setup, seen: seq<string>, w: nat, k: nat, n: nat,
                                         front: seq<H.Mail>)
    requires |front| <= n && AllSeen(v, u, seen, w, k, front)
    ensures Explained(v, u, seen, w, k, n, Behind(u, seen, front, After(v, u, seen, w, k, n, front)))
    decreases n - |front|
  {
    hide Next, AllSeen, After, Behind, Explained;
    match Next(v, u, seen, w, k, front) {
      case Message(m) =>
        if |front| < n {
          OneMoreSeen(v, u, seen, w, k, front, m);
          AfterOneMore(v, u, seen, w, k, n, front, m);
          RestExplained(v, u, seen, w, k, n, front + [m]);
        } else {
          StopExplained(v, u, seen, w, k, n, front);
        }
      case _ =>
        StopExplained(v, u, seen, w, k, n, front);
    }
  }

  /** The trace of a whole scan: STAT, the examined messages, and on failure the start of the next. */
  ghost predicate ScanTrace(trace: seq<Command>, verdicts: seq<int>, testMode: bool, result: ScanResult)
  {
    var k := |verdicts| + 1;
    exists rest ::
      && trace == [Stat] + Issued(verdicts, testMode) + rest
      && rest <= [List(k), Top(k)]
      && (result == Done ==> rest == [])
      && (result == Exited ==> rest == [List(k), Top(k)])
  }

  lemma RestDeletesNothing(verdicts: seq<int>, testMode: bool, rest: seq<Command>)
    requires rest <= [List(|verdicts| + 1), Top(|verdicts| + 1)]
    ensures DeletedIsGone([Stat] + Issued(verdicts, testMode) + rest)
  {
    hide Issued;
    var middle := Issued(verdicts, testMode);
    var trace := [Stat] + middle + rest;
    IssuedDeletedIsGone(verdicts, testMode);
    IssuedNames(verdicts, testMode);
    assert forall l :: 1 <= l <= |middle| ==> trace[l] == middle[l - 1] && middle[l - 1] in middle;
    assert forall l :: |middle| < l < |trace| ==>
        trace[l] == rest[l - 1 - |middle|] && Names(trace[l], |verdicts| + 1) && !trace[l].Dele?;
    forall i, j, n: int | 0 <= i < j < |trace| && trace[i] == Dele(n)
      ensures !Names(trace[j], n)
    {
      assert 1 <= i <= |middle|;
      assert middle[i - 1] == Dele(n);
    }
  }

  /** Whatever the outcome of a scan: nothing names a message after its deletion, and exactly the
      messages with verdict 1 are deleted, none in test mode. */
  lemma ScanDeletes(trace: seq<Command>, verdicts: seq<int>, testMode: bool, result: ScanResult)
    requires ScanTrace(trace, verdicts, testMode, result)
    ensures DeletedIsGone(trace)
    ensures forall n: int :: Dele(n) in trace <==> 1 <= n <= |verdicts| && verdicts[n - 1] == 1 && !testMode
  {
    hide Issued, DeletedIsGone;
    var k := |verdicts| + 1;
    var rest :| trace == [Stat] + Issued(verdicts, testMode) + rest && rest <= [List(k), Top(k)];
    RestDeletesNothing(verdicts, testMode, rest);
    assert forall c :: c in trace <==> c == Stat || c in Issued(verdicts, testMode) || c in rest;
    forall n: int
      ensures Dele(n) in trace <==> 1 <= n <= |verdicts| && verdicts[n - 1] == 1 && !testMode
    {
      IssuedDeletes(verdicts, testMode, n);
      assert Dele(n) !in rest;
    }
  }

  /** The trace of an explained session, behind STAT. */
  lemma TraceExplained(v: Server, u: Setup, seen: seq<string>, w: nat, k: nat, n: nat, q: Session)
    requires Explained(v, u, seen, w, k, n, q)
    ensures ScanTrace([Stat] + q.trace, Verdicts(u.rx, u.settings, seen, q.mails), u.testMode, q.result)
    ensures q.result == Done <==> n == |q.mails|
  {
    hide LookAt, Verdicts, Issued;
    var stop := Next(v, u, seen, w, k, q.mails);
    var requests := if |q.mails| == n then [] else Requests(|q.mails| + 1, stop);
    assert [Stat] + q.trace == [Stat] + Commands(u, seen, q.mails) + requests;
  }

  /** Against every server: after STAT, LIST and TOP ask for message after message and DELE follows
      the verdicts; the memory is that of the run; every judged message is the one its two replies
      describe; the scan returns 0 exactly when it judged all announced messages, and otherwise it
      stopped at the first one that could not be seen. */
  lemma ScanExplained(v: Server, u: Setup, seen: seq<string>, w: nat, k: nat)
    ensures var q := WholeScan(v, u, seen, w, k); var n := Announced(v, w, k);
      && ScanTrace(q.trace, Verdicts(u.rx, u.settings, seen, q.mails), u.testMode, q.result)
      && (q.result == Done <==> n == |q.mails|)
      && (n < 0 ==> q == Session([Stat], [], seen, Failed))
      && (n >= 0 ==> q.trace != [] && Explained(v, u, seen, w + 1, k + 1, n, q.(trace := q.trace[1..])))
  {
    hide Judge, Announced, ScanFrom, ScanTrace, Explained, Next;
    var n, q := Announced(v, w, k), WholeScan(v, u, seen, w, k);
    NothingIssued(u, seen);
    if n >= 0 {
      hide Commands, SeenAfter;
      RestExplained(v, u, seen, w + 1, k + 1, n, []);
      var rest := After(v, u, seen, w + 1, k + 1, n, []);
      assert [] + rest.trace == rest.trace == q.trace[1..] && [] + rest.mails == rest.mails;
      TraceExplained(v, u, seen, w + 1, k + 1, n, rest);
      assert rest == q.(trace := q.trace[1..]);
    } else {
      NoTrace(u, seen);
    }
  }

  lemma NoTrace(u: Setup, seen: seq<string>)
    ensures ScanTrace([Stat], Verdicts(u.rx, u.settings, seen, []), u.testMode, Failed)
  {
    assert Verdicts(u.rx, u.settings, seen, []) == [];
    assert [Stat] == [Stat] + Issued([], u.testMode) + [];
  }

  /** The program ends exactly at a message whose header is a syntax error, and the scan fails exactly
      when the number of messages is not announced or at a message that cannot be seen otherwise. */
  lemma StopIff(v: Server, u: Setup, seen: seq<string>, w: nat, k: nat)
    ensures var q := WholeScan(v, u, seen, w, k); var n := Announced(v, w, k);
      var stop := Next(v, u, seen, w + 1, k + 1, q.mails);
      && (q.result == Exited <==> |q.mails| < n && stop == Unreadable)
      && (q.result == Failed <==> n < 0 || (|q.mails| < n && stop != Unreadable))
      && (|q.mails| < n ==>
            q.trace == [Stat] + (Commands(u, seen, q.mails)
              + if stop == NoSize then [List(|q.mails| + 1)] else [List(|q.mails| + 1), Top(|q.mails| + 1)]))
  {
    ScanExplained(v, u, seen, w, k);
    StatFirst(v, u, seen, w, k);
    hide WholeScan, Next, Announced, ScanTrace, Commands;
    var q := WholeScan(v, u, seen, w, k);
    assert q.trace == [Stat] + q.trace[1..];
  }

  lemma StatFirst(v: Server, u: Setup, seen: seq<string>, w: nat, k: nat)
    ensures var q := WholeScan(v, u, seen, w, k); q.trace != [] && q.trace[0] == Stat
  {
    hide ScanFrom, Announced;
  }

  lemma NothingIssued(u: Setup, seen: seq<string>)
    ensures Commands(u, seen, []) == [] && SeenAfter(u.settings, seen, []) == seen
  {
  }

  /** The last Message-Id that the header of message `j` holds is not empty, and it was remembered from
      an earlier scan or an earlier message of this one holds it too. */
  ghost predicate Copy(seen: seq<string>, mails: seq<H.Mail>, j: nat)
    requires j < |mails|
  {
    var id := H.LastBody(mails[j].entries, "Message-Id");
    id != "" && (id in seen || exists i :: 0 <= i < j && H.LastBody(mails[i].entries, "Message-Id") == id)
  }

  /** With DEL_DUPLICATES: every copy of a message is deleted on the server, in test mode none. */
  lemma CopiesDeleted(v: Server, u: Setup, seen: seq<string>, w: nat, k: nat, j: nat)
    requires u.settings.delDuplicates && Distinct(seen)
    ensures var q := WholeScan(v, u, seen, w, k);
      j < |q.mails| && Copy(seen, q.mails, j) ==> (Dele(j + 1) in q.trace <==> !u.testMode)
  {
    var q := WholeScan(v, u, seen, w, k);
    if j < |q.mails| && Copy(seen, q.mails, j) {
      IdsAreHeaders(v, u, seen, w, k);
      ScanExplained(v, u, seen, w, k);
      hide *;
      CopyIsKnown(seen, q.mails, j);
      LaterCopiesDeleted(u.rx, u.settings, seen, q.mails, j);
      ScanDeletes(q.trace, Verdicts(u.rx, u.settings, seen, q.mails), u.testMode, q.result);
    }
  }

  lemma CopyIsKnown(seen: seq<string>, mails: seq<H.Mail>, j: nat)
    requires j < |mails| && Copy(seen, mails, j)
    requires forall i :: 0 <= i < |mails| ==> mails[i].id == H.LastBody(mails[i].entries, "Message-Id")
    ensures KnownId(seen, mails, j)
  {
  }

  lemma IdsAreHeaders(v: Server, u: Setup, seen: seq<string>, w: nat, k: nat)
    ensures var mails := WholeScan(v, u, seen, w, k).mails;
      forall i :: 0 <= i < |mails| ==> mails[i].id == H.LastBody(mails[i].entries, "Message-Id")
  {
    ScanExplained(v, u, seen, w, k);
    var mails := WholeScan(v, u, seen, w, k).mails;
    if mails != [] {
      hide WholeScan, ScanTrace, AllSeen, Next, Commands, Announced;
      SeenIds(v, u, seen, w + 1, k + 1, mails);
    }
  }

  lemma SeenIds(v: Server, u: Setup, seen: seq<string>, w: nat, k: nat, mails: seq<H.Mail>)
    requires AllSeen(v, u, seen, w, k, mails)
    ensures forall i :: 0 <= i < |mails| ==> mails[i].id == H.LastBody(mails[i].entries, "Message-Id")
  {
    hide Commands, LookAt;
    forall i | 0 <= i < |mails|
      ensures mails[i].id == H.LastBody(mails[i].entries, "Message-Id")
    {
      SeenMail(v, u, w + |Commands(u, seen, mails[..i])|, k + 2 * i);
      assert Next(v, u, seen, w, k, mails[..i]) == Message(mails[i]);
    }
  }

  /** The ID and the normalised subject of a judged message are those of its entries. */
  lemma SeenMail(v: Server, u: Setup, w: nat, k: nat)
    ensures var x := LookAt(v, u, w, k);
      x.Message? ==> x.mail == H.MailOf(u.settings.normal, x.mail.entries, x.mail.size)
  {
  }
}
