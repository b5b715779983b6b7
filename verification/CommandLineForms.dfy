// The documented ways of writing options, right and wrong, and the proof that the one-pass reading
// understands a command line written in them: reading is a left inverse of writing.
module CommandLineForms {
  import opened Common
  import opened LongOptions
  import opened OptionScan
  import opened OptionString

  /** What a program accepts: its option letters, with or without the leading colon of the option
      string, and its long options. */
  datatype Usage = Usage(quiet: bool, letters: seq<Letter>, long: Option<seq<LongOption>>)

  function ConfigOf(u: Usage): Config
  {
    Config(Spell(u.quiet, u.letters), u.long)
  }

  /** How the last option of a short cluster is written. */
  datatype Tail =
    | NoTail
    | Bare(c: char)                      // an optional argument that is not given
    | Attached(c: char, text: string)    // the argument follows in the same element
    | Detached(c: char, text: string)    // the argument is the next element
    | Missing(c: char)                   // a required argument for which there is no next element

  datatype LongArg = Absent | Joined(text: string) | Separate(text: string) | NoLongArg

  /** One unit of a command line. `flags` are short options without arguments and characters that are
      no options; `typed` is a long option name, possibly abbreviated, that denotes row `i` of the
      table, or one that denotes nothing. */
  datatype Item =
    | Operand(text: string)
    | Cluster(flags: string, tail: Tail)
    | Long(typed: string, i: nat, arg: LongArg)
    | NoSuchLong(typed: string, given: Option<string>)

  // ----- what is well written

  predicate GoodTail(u: Usage, t: Tail)
  {
    match t
    case NoTail => true
    case Bare(c) => Letter(c, Optional) in u.letters
    case Attached(c, text) => text != "" && (Letter(c, Optional) in u.letters || Letter(c, Required) in u.letters)
    case Detached(c, text) => Letter(c, Required) in u.letters
    case Missing(c) => Letter(c, Required) in u.letters
  }

  function TailText(t: Tail): string
  {
    match t
    case NoTail => ""
    case Attached(c, text) => [c] + text
    case _ => [t.c]
  }

  predicate GoodFlag(u: Usage, c: char)
  {
    Letter(c, NoArgument) in u.letters || !Listed(u.letters, c)
  }

  predicate GoodFlags(u: Usage, flags: string)
  {
    forall k :: 0 <= k < |flags| ==> GoodFlag(u, flags[k])
  }

  predicate Starts(name: string, typed: string)
  {
    |typed| <= |name| && name[..|typed|] == typed
  }

  /** `typed` denotes row `i`: the first row of that very name, or without one the first row that
      starts so, if all rows that start so have one effect. */
  predicate Denotes(table: seq<LongOption>, typed: string, i: nat)
  {
    && i < |table|
    && if exists j :: 0 <= j < |table| && table[j].name == typed then
         table[i].name == typed && forall j :: 0 <= j < i ==> table[j].name != typed
       else
         && Starts(table[i].name, typed) && (forall j :: 0 <= j < i ==> !Starts(table[j].name, typed))
         && forall j :: 0 <= j < |table| && Starts(table[j].name, typed) ==>
              table[j].hasArg == table[i].hasArg && table[j].flag == table[i].flag && table[j].val == table[i].val
  }

  /** `typed` denotes nothing: no row starts so, or two that do differ and none has that very name. */
  predicate DenotesNothing(table: seq<LongOption>, typed: string)
  {
    || (forall j :: 0 <= j < |table| ==> !Starts(table[j].name, typed))
    || ((forall j :: 0 <= j < |table| ==> table[j].name != typed)
        && exists j, k :: 0 <= j < |table| && 0 <= k < |table|
             && Starts(table[j].name, typed) && Starts(table[k].name, typed)
             && (table[j].hasArg != table[k].hasArg || table[j].flag != table[k].flag || table[j].val != table[k].val))
  }

  predicate GoodArg(p: LongOption, arg: LongArg)
  {
    match arg
    case Absent => p.hasArg != 1
    case Joined(_) => true
    case _ => p.hasArg == 1
  }

  predicate GoodItem(u: Usage, item: Item)
  {
    match item
    case Operand(text) => text == "" || text == "-" || text[0] != '-'
    case Cluster(flags, tail) =>
      var text := flags + TailText(tail);
      && GoodFlags(u, flags) && GoodTail(u, tail) && text != ""
      && (text[0] == '-' ==> |text| > 1 && u.long.None?)
    case Long(typed, i, arg) =>
      && u.long.Some? && LongText(item) != "" && '=' !in typed && Denotes(u.long.value, typed, i)
      && GoodArg(u.long.value[i], arg)
    case NoSuchLong(typed, given) =>
      u.long.Some? && LongText(item) != "" && '=' !in typed && DenotesNothing(u.long.value, typed)
  }

  /** Only the last unit of a command line can lack an argument. */
  predicate Incomplete(item: Item)
  {
    match item
    case Cluster(_, tail) => tail.Missing?
    case Long(_, _, arg) => arg.NoLongArg?
    case _ => false
  }

  // ----- writing

  function Extra(tail: Tail): seq<string>
  {
    if tail.Detached? then [tail.text] else []
  }

  /** What is written behind the dashes of a long option, and in the next element. */
  function LongText(item: Item): string
    requires item.Long? || item.NoSuchLong?
  {
    match item
    case Long(typed, _, arg) => if arg.Joined? then typed + "=" + arg.text else typed
    case NoSuchLong(typed, given) => if given.Some? then typed + "=" + given.value else typed
  }

  function LongExtra(item: Item): seq<string>
    requires item.Long? || item.NoSuchLong?
  {
    if item.Long? && item.arg.Separate? then [item.arg.text] else []
  }

  function Write(item: Item): seq<string>
  {
    match item
    case Operand(text) => [text]
    case Cluster(flags, tail) => ["-" + flags + TailText(tail)] + Extra(tail)
    case _ => ["--" + LongText(item)] + LongExtra(item)
  }

  // ----- what the caller is to be told

  /** An error: the answer `code` with `optopt` set. */
  function ErrorEvent(code: char, opt: int): Event
  {
    Event(code as int, None, Some(opt), None, None)
  }

  function MissingEvent(u: Usage, opt: int): Event
  {
    ErrorEvent(if u.quiet then ':' else '?', opt)
  }

  function TailEvents(u: Usage, t: Tail): seq<Event>
  {
    match t
    case NoTail => []
    case Bare(c) => [Event(c as int, None, None, None, None)]
    case Attached(c, text) => [Event(c as int, Some(text), None, None, None)]
    case Detached(c, text) => [Event(c as int, Some(text), None, None, None)]
    case Missing(c) => [MissingEvent(u, c as int)]
  }

  function FlagEvent(u: Usage, c: char): Event
  {
    if Listed(u.letters, c) then Event(c as int, None, None, None, None) else ErrorEvent('?', c as int)
  }

  function FlagEvents(u: Usage, flags: string): seq<Event>
  {
    if flags == "" then [] else [FlagEvent(u, flags[0])] + FlagEvents(u, flags[1..])
  }

  /** A row with a `flag` stores its value there and answers 0, one without answers its value. */
  function RowEvent(p: LongOption, i: nat, arg: Option<string>): Event
  {
    if p.flag.Some? then Event(0, arg, None, Some(i), Some((p.flag.value, p.val)))
    else Event(p.val, arg, None, Some(i), None)
  }

  function RowAnswer(u: Usage, p: LongOption, i: nat, arg: LongArg): Event
  {
    match arg
    case Absent => RowEvent(p, i, None)
    case Joined(text) => if p.hasArg == 0 then ErrorEvent('?', p.val) else RowEvent(p, i, Some(text))
    case Separate(text) => RowEvent(p, i, Some(text))
    case NoLongArg => MissingEvent(u, p.val)
  }

  function LongEvent(u: Usage, item: Item): Event
    requires (item.Long? || item.NoSuchLong?) && GoodItem(u, item)
  {
    match item
    case NoSuchLong(_, _) => ErrorEvent('?', 0)
    case Long(_, i, arg) => RowAnswer(u, u.long.value[i], i, arg)
  }

  function Meaning(u: Usage, item: Item): seq<Event>
    requires GoodItem(u, item)
  {
    match item
    case Operand(text) => []
    case Cluster(flags, tail) => FlagEvents(u, flags) + TailEvents(u, tail)
    case _ => [LongEvent(u, item)]
  }

  /** What a unit adds in front of an outcome. */
  function Put(u: Usage, item: Item, o: Outcome): Outcome
    requires GoodItem(u, item)
  {
    if item.Operand? then o.(others := [item.text] + o.others)
    else Outcome(Meaning(u, item) + o.events, Write(item) + o.options, o.others)
  }

  // ----- reading a long option back

  lemma {:induction false} IndexOfSplit(a: string, c: char, b: string)
    requires c !in a
    ensures IndexOf(a, c) == |a| && IndexOf(a + [c] + b, c) == |a|
  {
    IndexOfIs(a, c, |a|);
    IndexOfIs(a + [c] + b, c, |a|);
  }

  lemma StartsIs(name: string, typed: string)
    ensures Starts(name, typed) <==> typed <= name
  {
  }

  lemma DenotesIsResolve(table: seq<LongOption>, typed: string, i: nat)
    requires Denotes(table, typed, i)
    ensures Resolve(table, typed) == Found(i)
  {
    forall name: string {
      StartsIs(name, typed);
    }
    ResolveResolves(table, typed);
    ResolvesUnique(table, typed, Resolve(table, typed), Found(i));
  }

  lemma NothingIsResolve(table: seq<LongOption>, typed: string)
    requires DenotesNothing(table, typed)
    ensures !Resolve(table, typed).Found?
  {
    forall name: string {
      StartsIs(name, typed);
    }
    ResolveResolves(table, typed);
    hide Resolve;
  }

  lemma TypedResolves(u: Usage, item: Item)
    requires (item.Long? || item.NoSuchLong?) && GoodItem(u, item)
    ensures item.Long? ==> Resolve(u.long.value, item.typed) == Found(item.i)
    ensures item.NoSuchLong? ==> !Resolve(u.long.value, item.typed).Found?
  {
    if item.Long? {
      DenotesIsResolve(u.long.value, item.typed, item.i);
    } else {
      NothingIsResolve(u.long.value, item.typed);
    }
  }

  /** The argument in the same element as a long option. */
  function Given(item: Item): Option<string>
    requires item.Long? || item.NoSuchLong?
  {
    match item
    case Long(_, _, arg) => if arg.Joined? then Some(arg.text) else None
    case NoSuchLong(_, given) => given
  }

  function Joint(typed: string, given: Option<string>): string
  {
    if given.Some? then typed + "=" + given.value else typed
  }

  lemma LongTextIs(item: Item)
    requires item.Long? || item.NoSuchLong?
    ensures LongText(item) == Joint(item.typed, Given(item))
  {
  }

  lemma SplitText(typed: string, given: Option<string>)
    requires '=' !in typed
    ensures var body := Joint(typed, given);
      && IndexOf(body, '=') == |typed| <= |body| && body[..|typed|] == typed
      && (given.Some? <==> |typed| < |body|)
      && (given.Some? ==> body[|typed| + 1..] == given.value)
  {
    IndexOfSplit(typed, '=', if given.Some? then given.value else "");
  }

  lemma StepNothing(u: Usage, item: Item, following: seq<string>)
    requires item.NoSuchLong? && GoodItem(u, item)
    ensures LongStep(ConfigOf(u), LongText(item), following) == Taken(LongEvent(u, item), "", 0)
  {
    TypedResolves(u, item);
    LongTextIs(item);
    SplitText(item.typed, item.given);
    hide Resolve, IndexOf, DenotesNothing, Spell, LongText, Joint;
  }

  lemma StepRow(u: Usage, typed: string, i: nat, arg: LongArg, following: seq<string>)
    requires u.long.Some? && i < |u.long.value| && Resolve(u.long.value, typed) == Found(i)
    requires '=' !in typed && GoodArg(u.long.value[i], arg) && GoodLetters(u.letters)
    requires (arg.NoLongArg? ==> following == []) && (arg.Separate? ==> following != [] && following[0] == arg.text)
    ensures LongStep(ConfigOf(u), Joint(typed, if arg.Joined? then Some(arg.text) else None), following)
            == Taken(RowAnswer(u, u.long.value[i], i, arg), "", if arg.Separate? then 1 else 0)
  {
    hide *;
    ConfigIs(u);
    SplitText(typed, if arg.Joined? then Some(arg.text) else None);
    RowStep(u, ConfigOf(u), Joint(typed, if arg.Joined? then Some(arg.text) else None), |typed|, i, arg, following);
  }

  lemma ConfigIs(u: Usage)
    requires GoodLetters(u.letters)
    ensures ConfigOf(u).long == u.long && MissingCode(ConfigOf(u)) == (if u.quiet then ':' else '?') as int
  {
    MissingRead(u.quiet, u.letters, u.long);
  }

  lemma RowStep(u: Usage, cfg: Config, body: string, n: nat, i: nat, arg: LongArg, following: seq<string>)
    requires cfg.long.Some? && i < |cfg.long.value| && GoodArg(cfg.long.value[i], arg)
    requires IndexOf(body, '=') == n <= |body| && Resolve(cfg.long.value, body[..n]) == Found(i)
    requires if arg.Joined? then n < |body| && body[n + 1..] == arg.text else n == |body|
    requires MissingCode(cfg) == (if u.quiet then ':' else '?') as int
    requires (arg.NoLongArg? ==> following == []) && (arg.Separate? ==> following != [] && following[0] == arg.text)
    ensures LongStep(cfg, body, following)
            == Taken(RowAnswer(u, cfg.long.value[i], i, arg), "", if arg.Separate? then 1 else 0)
  {
    hide Resolve, IndexOf, MissingCode;
  }

  lemma ExtraIs(item: Item, rest: seq<string>)
    requires item.Long?
    ensures |LongExtra(item)| == if item.arg.Separate? then 1 else 0
    ensures item.arg.Separate? ==> (LongExtra(item) + rest)[0] == item.arg.text
  {
  }

  lemma StepLong(u: Usage, item: Item, rest: seq<string>)
    requires GoodLetters(u.letters)
    requires (item.Long? || item.NoSuchLong?) && GoodItem(u, item) && (Incomplete(item) ==> rest == [])
    ensures LongStep(ConfigOf(u), LongText(item), LongExtra(item) + rest)
            == Taken(LongEvent(u, item), "", |LongExtra(item)|)
  {
    TypedResolves(u, item);
    LongTextIs(item);
    hide LongStep, RowAnswer, LongText, GoodLetters, GoodArg, ConfigOf, Denotes, DenotesNothing, Resolve, Joint;
    if item.Long? {
      ExtraIs(item, rest);
      StepRow(u, item.typed, item.i, item.arg, LongExtra(item) + rest);
    } else {
      StepNothing(u, item, LongExtra(item) + rest);
    }
  }

  lemma LongWritten(u: Usage, item: Item)
    requires (item.Long? || item.NoSuchLong?) && GoodItem(u, item)
    ensures LongText(item) != "" && ConfigOf(u).long.Some? && |Write(item)| == 1 + |LongExtra(item)|
    ensures Write(item) == ["--" + LongText(item)] + LongExtra(item)
  {
    hide Denotes, DenotesNothing, LongText, LongExtra, Spell;
  }

  lemma TakesLong(cfg: Config, text: string, following: seq<string>)
    requires text != "" && cfg.long.Some?
    ensures AtOption("", ["--" + text] + following)
    ensures Take(cfg, "", ["--" + text] + following) == LongStep(cfg, text, following)
  {
    var a := "--" + text;
    assert a[0] == '-' && a[1] == '-' && |a| > 2 && a[2..] == text;
    assert ([a] + following)[1..] == following;
    hide LongStep, ShortStep;
  }

  lemma TakeLong(u: Usage, item: Item, rest: seq<string>)
    requires GoodLetters(u.letters)
    requires (item.Long? || item.NoSuchLong?) && GoodItem(u, item) && (Incomplete(item) ==> rest == [])
    ensures AtOption("", Write(item) + rest)
    ensures Take(ConfigOf(u), "", Write(item) + rest) == Taken(LongEvent(u, item), "", |Write(item)| - 1)
  {
    hide *;
    StepLong(u, item, rest);
    LongWritten(u, item);
    TakesLong(ConfigOf(u), LongText(item), LongExtra(item) + rest);
    var a, b := ["--" + LongText(item)], LongExtra(item);
    assert (a + b) + rest == a + (b + rest);
  }

  lemma ReadLong(u: Usage, item: Item, rest: seq<string>)
    requires GoodLetters(u.letters)
    requires (item.Long? || item.NoSuchLong?) && GoodItem(u, item) && (Incomplete(item) ==> rest == [])
    ensures Scan(ConfigOf(u), "", Write(item) + rest) == Put(u, item, Scan(ConfigOf(u), "", rest))
  {
    hide Scan, Take, Write, GoodItem, LongEvent;
    var args := Write(item) + rest;
    TakeLong(u, item, rest);
    ScanTakes(ConfigOf(u), "", args);
    assert args[..|Write(item)|] == Write(item) && args[|Write(item)|..] == rest;
  }

  // ----- reading a cluster back

  /** Reading on from `cluster`, the unread text of `element`, gives `events` and then what `rest`
      gives; the element and the argument `extra` behind it count as options. */
  ghost predicate Reads(cfg: Config, cluster: string, events: seq<Event>, element: string, extra: seq<string>,
                        rest: seq<string>)
    requires !NonOption(element) && element != END_MARK && |cluster| < |element|
  {
    var o := Scan(cfg, "", rest);
    Scan(cfg, cluster, [element] + extra + rest) == Outcome(events + o.events, [element] + extra + o.options, o.others)
  }

  /** `text` is all that is left of a short option element. */
  predicate InCluster(cfg: Config, cluster: string, text: string, element: string)
  {
    && !NonOption(element) && element != END_MARK && !IsLong(cfg, element)
    && text != "" && |text| < |element|
    && cluster == if text == element[1..] then "" else text
  }

  lemma TailIs(tail: Tail, rest: seq<string>)
    requires tail != NoTail
    ensures var s := TailText(tail); s != "" && s[0] == tail.c && s[1..] == if tail.Attached? then tail.text else ""
    ensures if tail.Detached? then Extra(tail) + rest != [] && (Extra(tail) + rest)[0] == tail.text
            else Extra(tail) + rest == rest
    ensures |Extra(tail)| == if tail.Detached? then 1 else 0
  {
  }

  lemma StepTail(u: Usage, tail: Tail, rest: seq<string>)
    requires GoodLetters(u.letters) && GoodTail(u, tail) && tail != NoTail && (tail.Missing? ==> rest == [])
    ensures [ShortStep(ConfigOf(u), TailText(tail), Extra(tail) + rest).event] == TailEvents(u, tail)
    ensures ShortStep(ConfigOf(u), TailText(tail), Extra(tail) + rest).used == |Extra(tail)|
    ensures ShortStep(ConfigOf(u), TailText(tail), Extra(tail) + rest).rest == ""
  {
    KindsRead(u.quiet, u.letters, tail.c);
    TailIs(tail, rest);
    ConfigIs(u);
    assert KindOf(ConfigOf(u).short, tail.c)
           == if tail.Bare? then Optional else if tail.Attached? && Letter(tail.c, Optional) in u.letters then Optional
              else Required;
    hide *;
    TailStep(u, ConfigOf(u), tail, TailText(tail), Extra(tail) + rest);
  }

  lemma TailStep(u: Usage, cfg: Config, tail: Tail, text: string, following: seq<string>)
    requires tail != NoTail && text != "" && text[0] == tail.c
    requires text[1..] == if tail.Attached? then tail.text else ""
    requires tail.Attached? ==> tail.text != ""
    requires KindOf(cfg.short, tail.c) in {Optional, Required}
    requires !tail.Attached? ==> KindOf(cfg.short, tail.c) == if tail.Bare? then Optional else Required
    requires MissingCode(cfg) == (if u.quiet then ':' else '?') as int
    requires (tail.Missing? ==> following == []) && (tail.Detached? ==> following != [] && following[0] == tail.text)
    ensures var t := ShortStep(cfg, text, following);
      [t.event] == TailEvents(u, tail) && t.used == (if tail.Detached? then 1 else 0) && t.rest == ""
  {
    hide KindOf, MissingCode;
  }

  lemma TakesCluster(cfg: Config, cluster: string, text: string, args: seq<string>)
    requires args != [] && InCluster(cfg, cluster, text, args[0])
    ensures Take(cfg, cluster, args) == ShortStep(cfg, text, args[1..])
  {
  }

  lemma ReadTail(u: Usage, cluster: string, tail: Tail, element: string, rest: seq<string>)
    requires GoodLetters(u.letters) && GoodTail(u, tail) && (tail.Missing? ==> rest == [])
    requires InCluster(ConfigOf(u), cluster, TailText(tail), element)
    ensures Reads(ConfigOf(u), cluster, TailEvents(u, tail), element, Extra(tail), rest)
  {
    var args := [element] + Extra(tail) + rest;
    assert args[1..] == Extra(tail) + rest;
    StepTail(u, tail, rest);
    TakesCluster(ConfigOf(u), cluster, TailText(tail), args);
    assert AtOption(cluster, args);
    hide Scan, ShortStep, Take, ConfigOf, GoodLetters, GoodTail, InCluster, AtOption, NonOption, IsLong, TailEvents;
    ScanTakes(ConfigOf(u), cluster, args);
    assert args[..1 + |Extra(tail)|] == [element] + Extra(tail) && args[1 + |Extra(tail)|..] == rest;
  }

  lemma StepFlag(u: Usage, c: char, left: string, following: seq<string>)
    requires GoodLetters(u.letters) && GoodFlag(u, c)
    ensures ShortStep(ConfigOf(u), [c] + left, following) == Taken(FlagEvent(u, c), left, 0)
  {
    KindsRead(u.quiet, u.letters, c);
    hide KindOf, Spell;
    assert ([c] + left)[1..] == left;
  }

  lemma ReadsNext(cfg: Config, cluster: string, e: Event, left: string, events: seq<Event>, element: string,
                  extra: seq<string>, rest: seq<string>)
    requires !NonOption(element) && element != END_MARK && |cluster| < |element| && |left| < |element|
    requires Take(cfg, cluster, [element] + extra + rest) == Taken(e, left, 0)
    requires if left == "" then events == [] && extra == [] else Reads(cfg, left, events, element, extra, rest)
    ensures Reads(cfg, cluster, [e] + events, element, extra, rest)
  {
    hide Scan, Take, NonOption;
    var args := [element] + extra + rest;
    ScanTakes(cfg, cluster, args);
    var o := Scan(cfg, "", rest);
    if left == "" {
      assert args[..1] == [element] && args[1..] == rest;
      assert [e] + o.events == [e] + [] + o.events;
    } else {
      assert args[0..] == args && args[..0] == [];
      assert [e] + (events + o.events) == [e] + events + o.events;
    }
  }

  lemma ReadFlag(u: Usage, cluster: string, c: char, left: string, events: seq<Event>, element: string,
                 extra: seq<string>, rest: seq<string>)
    requires GoodLetters(u.letters) && GoodFlag(u, c) && InCluster(ConfigOf(u), cluster, [c] + left, element)
    requires if left == "" then events == [] && extra == [] else Reads(ConfigOf(u), left, events, element, extra, rest)
    ensures Reads(ConfigOf(u), cluster, [FlagEvent(u, c)] + events, element, extra, rest)
  {
    var cfg, args := ConfigOf(u), [element] + extra + rest;
    StepFlag(u, c, left, args[1..]);
    TakesCluster(cfg, cluster, [c] + left, args);
    hide Scan, Take, ShortStep, FlagEvent, ConfigOf, GoodLetters, GoodFlag, NonOption, IsLong, Reads;
    ReadsNext(cfg, cluster, FlagEvent(u, c), left, events, element, extra, rest);
  }

  lemma InRestOfCluster(cfg: Config, cluster: string, c: char, left: string, element: string)
    requires InCluster(cfg, cluster, [c] + left, element)
    ensures left != "" ==> InCluster(cfg, left, left, element)
  {
  }

  lemma NothingLeft(u: Usage, flags: string, tail: Tail)
    requires flags + TailText(tail) == ""
    ensures Extra(tail) == [] && FlagEvents(u, flags) + TailEvents(u, tail) == []
  {
  }

  lemma NoFlags(u: Usage, tail: Tail)
    ensures FlagEvents(u, "") + TailEvents(u, tail) == TailEvents(u, tail)
  {
  }

  lemma SplitFlags(u: Usage, flags: string)
    requires flags != "" && GoodFlags(u, flags)
    ensures GoodFlag(u, flags[0]) && GoodFlags(u, flags[1..])
  {
    hide GoodFlag;
  }

  lemma ClusterEvents(u: Usage, flags: string, tail: Tail)
    requires flags != ""
    ensures [FlagEvent(u, flags[0])] + (FlagEvents(u, flags[1..]) + TailEvents(u, tail))
            == FlagEvents(u, flags) + TailEvents(u, tail)
  {
  }

  lemma {:induction false} ReadCluster(u: Usage, cluster: string, flags: string, tail: Tail, element: string,
                                       rest: seq<string>)
    requires GoodLetters(u.letters) && GoodFlags(u, flags) && GoodTail(u, tail) && (tail.Missing? ==> rest == [])
    requires InCluster(ConfigOf(u), cluster, flags + TailText(tail), element)
    ensures Reads(ConfigOf(u), cluster, FlagEvents(u, flags) + TailEvents(u, tail), element, Extra(tail), rest)
    decreases |flags|
  {
    hide *;
    if flags == "" {
      assert flags + TailText(tail) == TailText(tail);
      ReadTail(u, cluster, tail, element, rest);
      NoFlags(u, tail);
    } else {
      var left, later := flags[1..] + TailText(tail), FlagEvents(u, flags[1..]) + TailEvents(u, tail);
      SplitFlags(u, flags);
      assert flags + TailText(tail) == [flags[0]] + left;
      InRestOfCluster(ConfigOf(u), cluster, flags[0], left, element);
      ClusterEvents(u, flags, tail);
      if left != "" {
        ReadCluster(u, left, flags[1..], tail, element, rest);
      } else {
        NothingLeft(u, flags[1..], tail);
      }
      ReadFlag(u, cluster, flags[0], left, later, element, Extra(tail), rest);
    }
  }

  // ----- reading a command line back

  lemma ReadOperand(u: Usage, text: string, rest: seq<string>)
    requires GoodItem(u, Operand(text))
    ensures Scan(ConfigOf(u), "", [text] + rest) == Put(u, Operand(text), Scan(ConfigOf(u), "", rest))
  {
    assert ([text] + rest)[1..] == rest;
    ScanSkips(ConfigOf(u), [text] + rest);
  }

  lemma ClusterElement(u: Usage, flags: string, tail: Tail)
    requires GoodItem(u, Cluster(flags, tail))
    ensures InCluster(ConfigOf(u), "", flags + TailText(tail), "-" + flags + TailText(tail))
  {
    var element, text := "-" + flags + TailText(tail), flags + TailText(tail);
    assert element == "-" + text && element[1..] == text;
    assert element[1] == text[0];
  }

  lemma ReadItem(u: Usage, item: Item, rest: seq<string>)
    requires GoodLetters(u.letters) && GoodItem(u, item) && (Incomplete(item) ==> rest == [])
    ensures Scan(ConfigOf(u), "", Write(item) + rest) == Put(u, item, Scan(ConfigOf(u), "", rest))
  {
    match item
    case Operand(text) =>
      ReadOperand(u, text, rest);
    case Cluster(flags, tail) =>
      ClusterElement(u, flags, tail);
      hide Scan, FlagEvents, TailEvents, TailText, Extra, ConfigOf, InCluster;
      ReadCluster(u, "", flags, tail, "-" + flags + TailText(tail), rest);
    case _ =>
      ReadLong(u, item, rest);
  }

  function WriteAll(items: seq<Item>): seq<string>
  {
    if items == [] then [] else Write(items[0]) + WriteAll(items[1..])
  }

  function PutAll(u: Usage, items: seq<Item>, o: Outcome): Outcome
    requires forall item :: item in items ==> GoodItem(u, item)
  {
    if items == [] then o else Put(u, items[0], PutAll(u, items[1..], o))
  }

  lemma WriteAllSplit(items: seq<Item>, closing: seq<string>)
    requires items != []
    ensures WriteAll(items) + closing == Write(items[0]) + (WriteAll(items[1..]) + closing)
  {
    hide Write;
  }

  /** A unit without its argument stands at the very end. */
  predicate EndsWell(items: seq<Item>, closing: seq<string>)
  {
    forall k :: 0 <= k < |items| && Incomplete(items[k]) ==> k == |items| - 1 && closing == []
  }

  /** Reading a written command line and what follows it. */
  lemma {:induction false} ReadingAll(u: Usage, items: seq<Item>, closing: seq<string>)
    requires GoodLetters(u.letters)
    requires (forall item :: item in items ==> GoodItem(u, item)) && EndsWell(items, closing)
    ensures Scan(ConfigOf(u), "", WriteAll(items) + closing) == PutAll(u, items, Scan(ConfigOf(u), "", closing))
  {
    hide Scan, Put, Write, GoodItem, Incomplete, GoodLetters, ConfigOf;
    if items == [] {
      assert WriteAll(items) + closing == closing;
    } else {
      var later := items[1..];
      assert EndsWell(later, closing) by {
        assert forall k :: 0 <= k < |later| ==> later[k] == items[k + 1];
      }
      assert Incomplete(items[0]) ==> WriteAll(later) + closing == [];
      hide WriteAll, EndsWell;
      WriteAllSplit(items, closing);
      ReadingAll(u, later, closing);
      ReadItem(u, items[0], WriteAll(later) + closing);
    }
  }

  /** For every program and every command line written in the documented forms, right or wrong,
      optionally closed by `--` and anything at all: the answers are exactly what was written, in
      order, and everything that was not written as an option is an operand. */
  lemma ReadingInvertsWriting(u: Usage, items: seq<Item>, closing: seq<string>)
    requires GoodLetters(u.letters)
    requires (forall item :: item in items ==> GoodItem(u, item)) && EndsWell(items, closing)
    requires closing == [] || closing[0] == "--"
    ensures Scan(ConfigOf(u), "", WriteAll(items) + closing)
            == PutAll(u, items, if closing == [] then Outcome([], [], []) else Outcome([], ["--"], closing[1..]))
  {
    ReadingAll(u, items, closing);
  }
}
