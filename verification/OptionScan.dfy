// The pure one-pass reading of a command line: what the options mean, with no state and no
// reordering. The mutating scanner in Getopt.dfy is proved to give these answers.
module OptionScan {
  import opened Common
  import opened LongOptions

  /** The option string, and the long option table when there is one. */
  datatype Config = Config(short: string, long: Option<seq<LongOption>>)

  /** One answer to the caller: the returned code, `optarg`, a new `optopt` if it is set, the row
      written to `longind` and the caller's variable that receives a value. */
  datatype Event = Event(code: int, arg: Option<string>, opt: Option<int>, index: Option<nat>,
                         store: Option<(nat, int)>)

  /** All the answers, then the elements that count as options and those that do not. */
  datatype Outcome = Outcome(events: seq<Event>, options: seq<string>, others: seq<string>)

  const QUESTION := '?' as int
  const END_MARK := "--"

  /** Option strings that ask for the default (permuting) order and contain no "W;". */
  predicate Plain(short: string)
  {
    && (short != "" ==> short[0] != '+' && short[0] != '-')
    && forall i :: 0 <= i < |short| - 1 && short[i] == 'W' ==> short[i + 1] != ';'
  }

  predicate NonOption(a: string)
  {
    |a| < 2 || a[0] != '-'
  }

  predicate IsLong(cfg: Config, a: string)
  {
    cfg.long.Some? && 2 <= |a| && a[1] == '-'
  }

  function MissingCode(cfg: Config): int
  {
    if cfg.short != "" && cfg.short[0] == ':' then ':' as int else QUESTION
  }

  // ----- short options

  datatype Kind = Invalid | NoArgument | Required | Optional

  /** Position of the first occurrence, or the length. */
  function IndexOf(s: string, c: char): (i: nat)
    ensures i <= |s|
  {
    if s == "" || s[0] == c then 0 else 1 + IndexOf(s[1..], c)
  }

  lemma {:induction false} IndexOfIs(s: string, c: char, i: nat)
    requires i <= |s| && (i < |s| ==> s[i] == c)
    requires forall j :: 0 <= j < i ==> s[j] != c
    ensures IndexOf(s, c) == i
  {
    if i > 0 {
      IndexOfIs(s[1..], c, i - 1);
    }
  }

  predicate ColonAt(s: string, i: nat)
  {
    i < |s| && s[i] == ':'
  }

  function KindOf(short: string, c: char): Kind
  {
    var i := IndexOf(short, c);
    if i == |short| || c == ':' then Invalid
    else if !ColonAt(short, i + 1) then NoArgument
    else if ColonAt(short, i + 2) then Optional
    else Required
  }

  /** An answer, what is left of the cluster, and how many following elements it used. */
  datatype Taken = Taken(event: Event, rest: string, used: nat)

  function Short(code: int, arg: Option<string>): Event
  {
    Event(code, arg, None, None, None)
  }

  function Failed(code: int, opt: int): Event
  {
    Event(code, None, Some(opt), None, None)
  }

  function ShortStep(cfg: Config, cluster: string, following: seq<string>): (t: Taken)
    requires cluster != ""
    ensures t.used <= |following|
    ensures |t.rest| < |cluster|
    ensures t.used > 0 ==> t.rest == ""
  {
    var c, rest := cluster[0], cluster[1..];
    match KindOf(cfg.short, c)
    case Invalid => Taken(Failed(QUESTION, c as int), rest, 0)
    case NoArgument => Taken(Short(c as int, None), rest, 0)
    case Optional => Taken(Short(c as int, if rest == "" then None else Some(rest)), "", 0)
    case Required =>
      if rest != "" then Taken(Short(c as int, Some(rest)), "", 0)
      else if following == [] then Taken(Failed(MissingCode(cfg), c as int), "", 0)
      else Taken(Short(c as int, Some(following[0])), "", 1)
  }

  // ----- long options

  function FoundLong(p: LongOption, i: nat, arg: Option<string>): Event
  {
    match p.flag
    case Some(v) => Event(0, arg, None, Some(i), Some((v, p.val)))
    case None => Event(p.val, arg, None, Some(i), None)
  }

  function LongStep(cfg: Config, body: string, following: seq<string>): (t: Taken)
    requires cfg.long.Some?
    ensures t.used <= |following|
    ensures t.rest == ""
  {
    var n := IndexOf(body, '=');
    match Resolve(cfg.long.value, body[..n])
    case Unknown => Taken(Failed(QUESTION, 0), "", 0)
    case Ambiguous => Taken(Failed(QUESTION, 0), "", 0)
    case Found(i) =>
      var p := cfg.long.value[i];
      if n < |body| then
        if p.hasArg != 0 then Taken(FoundLong(p, i, Some(body[n + 1..])), "", 0)
        else Taken(Failed(QUESTION, p.val), "", 0)
      else if p.hasArg != 1 then Taken(FoundLong(p, i, None), "", 0)
      else if following == [] then Taken(Failed(MissingCode(cfg), p.val), "", 0)
      else Taken(FoundLong(p, i, Some(following[0])), "", 1)
  }

  // ----- the whole line

  /** An option element starts `args`, or its unread tail is `cluster`. */
  predicate AtOption(cluster: string, args: seq<string>)
  {
    && args != []
    && !NonOption(args[0]) && args[0] != END_MARK
    && |cluster| < |args[0]|
  }

  /** What the next answer takes. */
  function Take(cfg: Config, cluster: string, args: seq<string>): (t: Taken)
    requires AtOption(cluster, args)
    ensures t.used < |args|
    ensures t.rest != "" ==> t.used == 0 && |t.rest| < |args[0]| && (cluster != "" ==> |t.rest| < |cluster|)
  {
    if cluster == "" && IsLong(cfg, args[0]) then LongStep(cfg, args[0][2..], args[1..])
    else ShortStep(cfg, if cluster == "" then args[0][1..] else cluster, args[1..])
  }

  /** Elements finished by taking `t`: none in the middle of a cluster. */
  function Finished(t: Taken): nat
  {
    if t.rest == "" then 1 + t.used else 0
  }

  /** Read `args` from left to right. A non-empty `cluster` is the unread tail of the short option
      element `args[0]`. */
  function Scan(cfg: Config, cluster: string, args: seq<string>): Outcome
    requires cluster != "" ==> AtOption(cluster, args)
    decreases |args|, if cluster == "" && args != [] then |args[0]| else |cluster|
  {
    if args == [] then Outcome([], [], [])
    else if NonOption(args[0]) then
      var o := Scan(cfg, "", args[1..]);
      o.(others := [args[0]] + o.others)
    else if args[0] == END_MARK then Outcome([], [END_MARK], args[1..])
    else
      var t := Take(cfg, cluster, args);
      var n := Finished(t);
      var o := Scan(cfg, t.rest, args[n..]);
      Outcome([t.event] + o.events, args[..n] + o.options, o.others)
  }

  lemma ScanSkips(cfg: Config, args: seq<string>)
    requires args != [] && NonOption(args[0])
    ensures var o := Scan(cfg, "", args[1..]); Scan(cfg, "", args) == o.(others := [args[0]] + o.others)
  {
  }

  lemma ScanTakes(cfg: Config, cluster: string, args: seq<string>)
    requires AtOption(cluster, args)
    ensures var t := Take(cfg, cluster, args); var n := Finished(t); var o := Scan(cfg, t.rest, args[n..]);
      Scan(cfg, cluster, args) == Outcome([t.event] + o.events, args[..n] + o.options, o.others)
  {
    hide Take;
  }

  /** Options (with their arguments and a closing `--`) and non-options are a stable partition of
      the command line. */
  lemma {:induction false} ScanPartitions(cfg: Config, cluster: string, args: seq<string>)
    requires cluster != "" ==> AtOption(cluster, args)
    ensures var o := Scan(cfg, cluster, args); Interleaves(args, o.options, o.others)
    decreases |args|, if cluster == "" && args != [] then |args[0]| else |cluster|
  {
    hide Take;
    if args == [] {
    } else if NonOption(args[0]) {
      ScanPartitions(cfg, "", args[1..]);
      assert Scan(cfg, "", args).others[1..] == Scan(cfg, "", args[1..]).others;
    } else if args[0] == END_MARK {
      InterleavesAllRight(args[1..]);
      assert [END_MARK][1..] == [];
    } else {
      var t := Take(cfg, cluster, args);
      var n := Finished(t);
      ScanPartitions(cfg, t.rest, args[n..]);
      var o := Scan(cfg, t.rest, args[n..]);
      InterleavesLeftBlock(args[..n], args[n..], o.options, o.others);
      assert args == args[..n] + args[n..];
    }
  }

  // ----- when there is nothing to answer

  /** The first element with option syntax, if there is one, is `--`. */
  predicate Quiet(args: seq<string>)
  {
    forall i :: 0 <= i < |args| && !NonOption(args[i]) ==> END_MARK in args[..i + 1]
  }

  lemma QuietBehind(args: seq<string>)
    requires args != [] && NonOption(args[0])
    ensures Quiet(args) <==> Quiet(args[1..])
  {
    hide NonOption;
    assert NonOption(args[0]) ==> args[0] != END_MARK by {
      assert !NonOption(END_MARK) by {
        MarkIsNoOperand();
      }
    }
    forall i | 1 <= i < |args|
      ensures END_MARK in args[..i + 1] <==> END_MARK in args[1..][..i]
    {
      assert args[..i + 1] == [args[0]] + args[1..][..i];
    }
    if Quiet(args) {
      forall i | 0 <= i < |args[1..]| && !NonOption(args[1..][i])
        ensures END_MARK in args[1..][..i + 1]
      {
        assert !NonOption(args[i + 1]) && END_MARK in args[..i + 2];
      }
    }
    if Quiet(args[1..]) {
      forall i | 0 <= i < |args| && !NonOption(args[i])
        ensures END_MARK in args[..i + 1]
      {
        assert args[1..][i - 1] == args[i];
      }
    }
  }

  lemma MarkIsNoOperand()
    ensures !NonOption(END_MARK)
  {
  }

  /** A reading gives no answer exactly for a quiet line. */
  lemma {:induction false} QuietIff(cfg: Config, args: seq<string>)
    ensures Scan(cfg, "", args).events == [] <==> Quiet(args)
  {
    if args == [] {
    } else if NonOption(args[0]) {
      ScanSkips(cfg, args);
      QuietIff(cfg, args[1..]);
      QuietBehind(args);
    } else if args[0] == END_MARK {
      forall i | 0 <= i < |args| && !NonOption(args[i])
        ensures END_MARK in args[..i + 1]
      {
        assert args[..i + 1][0] == END_MARK;
      }
    } else {
      ScanTakes(cfg, "", args);
      assert args[..1] == [args[0]];
    }
  }

  /** What a line without `--` leaves over is quiet. */
  lemma {:induction false} RestIsQuiet(cfg: Config, cluster: string, args: seq<string>)
    requires cluster != "" ==> AtOption(cluster, args)
    requires END_MARK !in args
    ensures forall a :: a in Scan(cfg, cluster, args).others ==> NonOption(a)
    ensures Quiet(Scan(cfg, cluster, args).others)
    decreases |args|, if cluster == "" && args != [] then |args[0]| else |cluster|
  {
    hide Take;
    if args == [] {
    } else if NonOption(args[0]) {
      RestIsQuiet(cfg, "", args[1..]);
    } else {
      var t := Take(cfg, cluster, args);
      RestIsQuiet(cfg, t.rest, args[Finished(t)..]);
    }
  }

  /** A concrete line whose rest is not quiet: read again, its operand is an option. */
  lemma OperandReadAgain()
    ensures var cfg := Config("a", None); var o := Scan(cfg, "", ["--", "-a"]);
      o == Outcome([], ["--"], ["-a"]) && Scan(cfg, "", o.others).events == [Short('a' as int, None)]
  {
    var cfg := Config("a", None);
    assert ["--", "-a"][1..] == ["-a"];
    ScanTakes(cfg, "", ["-a"]);
    assert "-a"[1..] == "a" && "a"[1..] == "";
    assert ["-a"][1..] == [];
  }
}
