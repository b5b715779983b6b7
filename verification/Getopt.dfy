// The re-entrant, permuting argument scanner, proved to give the answers of the one-pass reading in
// OptionScan.dfy while it reorders the argument vector lazily between calls.
module Getopt {
  import opened Common
  import opened LongOptions
  import opened OptionScan
  import opened Exchange

  function Min(a: nat, b: nat): (m: nat)
    ensures m <= a && m <= b
  {
    if a < b then a else b
  }

  /** The argument vector a scan will leave behind: `a[f..l]` are skipped non-options, `a[l..o]` are
      options processed since, and `rest` is the reading of what follows. */
  function Layout(a: seq<string>, f: nat, l: nat, o: nat, rest: Outcome): seq<string>
    requires f <= l <= o <= |a|
  {
    a[..f] + a[l..o] + rest.options + a[f..l] + rest.others
  }

  /** What is still to come: the answers, the final argument vector and the final `optind`. */
  datatype Plan = Plan(events: seq<Event>, argv: seq<string>, optind: int)
  {
    /** The plan before answer `e` was given. */
    function Before(e: Event): Plan
    {
      this.(events := [e] + events)
    }
  }

  function PlanFor(a: seq<string>, f: nat, l: nat, o: nat, rest: Outcome): Plan
    requires f <= l <= o <= |a|
  {
    Plan(rest.events, Layout(a, f, l, o, rest), f + (o - l) + |rest.options|)
  }

  /** The scanner's state as the next call will see it: the argument vector, where reading resumes,
      the unread tail of a short option element, and the block of skipped non-options. */
  datatype View = View(argv: seq<string>, at: nat, cluster: string, first: nat, end: nat)

  /** `s` is a proper tail of `element`. */
  predicate IsTail(s: string, element: string)
  {
    |s| < |element| && element[|element| - |s|..] == s
  }

  predicate Sound(v: View, cfg: Config)
  {
    && 1 <= v.first <= v.end <= v.at <= |v.argv|
    && (v.cluster != "" ==>
          && AtOption(v.cluster, v.argv[v.at..]) && !IsLong(cfg, v.argv[v.at])
          && IsTail(v.cluster, v.argv[v.at]))
  }

  function PlanOf(v: View, cfg: Config): Plan
    requires Sound(v, cfg)
  {
    PlanFor(v.argv, v.first, v.end, v.at, Scan(cfg, v.cluster, v.argv[v.at..]))
  }

  /** Whole elements not yet started. */
  function ElementsLeft(v: View): int
  {
    |v.argv| - v.at - if v.cluster == "" then 0 else 1
  }

  /** Reading has moved on past whole elements only, or not at all. */
  predicate Ahead(v: View, w: View)
  {
    |w.argv| == |v.argv| && w.cluster == v.cluster && v.at <= w.at && (v.cluster != "" ==> w.at == v.at)
  }

  /** Progress of one answer. */
  predicate Closer(v: View, w: View)
  {
    || ElementsLeft(w) < ElementsLeft(v)
    || (ElementsLeft(w) == ElementsLeft(v) && |w.cluster| < |v.cluster|)
  }

  lemma AheadCloser(v: View, w: View, u: View)
    requires Ahead(v, w) && Closer(w, u)
    ensures Closer(v, u)
  {
  }

  // ----- how the layout reacts to the scanner's moves

  lemma LayoutExchange(a: seq<string>, f: nat, l: nat, o: nat, rest: Outcome)
    requires f <= l <= o <= |a|
    ensures var b := Swapped(a, f, l, o);
      && Layout(b, f + (o - l), o, o, rest) == Layout(a, f, l, o, rest)
      && b[o..] == a[o..]
  {
    var b, g := Swapped(a, f, l, o), f + (o - l);
    assert b[..g] == a[..f] + a[l..o];
    assert b[g..o] == a[f..l];
    assert b[o..o] == [];
  }

  lemma LayoutNoOthers(a: seq<string>, f: nat, o: nat, rest: Outcome)
    requires f <= o <= |a|
    ensures Layout(a, o, o, o, rest) == Layout(a, f, f, o, rest)
  {
    assert a[..o] == a[..f] + a[f..o];
    assert a[o..o] == a[f..f] == [];
  }

  lemma LayoutSkip(a: seq<string>, f: nat, o: nat, rest: Outcome)
    requires f <= o < |a|
    ensures Layout(a, f, o, o, rest.(others := [a[o]] + rest.others)) == Layout(a, f, o + 1, o + 1, rest)
  {
    assert a[f..o + 1] == a[f..o] + [a[o]];
    assert a[o..o] == a[o + 1..o + 1] == [];
  }

  lemma LayoutTake(a: seq<string>, f: nat, l: nat, o: nat, n: nat, whole: Outcome, rest: Outcome)
    requires f <= l <= o <= o + n <= |a|
    requires whole.options == a[o..][..n] + rest.options && whole.others == rest.others
    ensures Layout(a, f, l, o, whole) == Layout(a, f, l, o + n, rest)
  {
    assert a[l..o + n] == a[l..o] + a[o..][..n];
  }

  lemma LayoutEnd(a: seq<string>, f: nat, l: nat, rest: Outcome)
    requires f <= l <= |a|
    requires l == |a| && rest.options == [] && rest.others == []
    ensures Layout(a, f, l, l, rest) == a
  {
    assert a == a[..f] + a[f..l];
  }

  lemma LayoutEndMark(a: seq<string>, f: nat, o: nat)
    requires f <= o < |a| && a[o] == END_MARK
    ensures Layout(a, f, o, o, Outcome([], [END_MARK], a[o + 1..])) == Swapped(a, f, o, o + 1)
  {
    assert a[o..o + 1] == [END_MARK];
    assert a[o..o] == [];
  }

  // ----- what decoding one option does to the plan

  predicate InOption(v: View, cfg: Config)
  {
    && Sound(v, cfg)
    && AtOption(v.cluster, v.argv[v.at..])
  }

  function TakenAt(v: View, cfg: Config): Taken
    requires InOption(v, cfg)
  {
    Take(cfg, v.cluster, v.argv[v.at..])
  }

  /** The state after decoding: in the rest of the cluster, or past the element and its argument. */
  function After(v: View, t: Taken): View
  {
    View(v.argv, v.at + Finished(t), t.rest, v.first, v.end)
  }

  lemma DecodingIsSound(v: View, cfg: Config)
    requires InOption(v, cfg)
    ensures Sound(After(v, TakenAt(v, cfg)), cfg) && Closer(v, After(v, TakenAt(v, cfg)))
  {
  }

  lemma DecodingKeepsPlan(v: View, cfg: Config)
    requires InOption(v, cfg) && Sound(After(v, TakenAt(v, cfg)), cfg)
    ensures PlanOf(v, cfg) == PlanOf(After(v, TakenAt(v, cfg)), cfg).Before(TakenAt(v, cfg).event)
  {
    hide Take, Layout;
    var t := TakenAt(v, cfg);
    var n := Finished(t);
    var tail := v.argv[v.at..];
    var o := Scan(cfg, t.rest, tail[n..]);
    assert tail[n..] == v.argv[v.at + n..];
    LayoutTake(v.argv, v.first, v.end, v.at, n, Scan(cfg, v.cluster, tail), o);
  }

  /** Nothing more will be answered exactly between elements with a quiet rest. */
  lemma NothingPlanned(v: View, cfg: Config)
    requires Sound(v, cfg)
    ensures PlanOf(v, cfg).events == [] <==> v.cluster == "" && Quiet(v.argv[v.at..])
  {
    hide Take, Layout;
    if v.cluster == "" {
      QuietIff(cfg, v.argv[v.at..]);
    } else {
      ScanTakes(cfg, v.cluster, v.argv[v.at..]);
    }
  }

  /** The scanner's static variables. `nextchar` is empty where the source has a null pointer or the
      end of an element. */
  class Scanner {
    var optind: nat
    var optarg: Option<string>
    var optopt: int
    var initialized: bool
    var nextchar: string
    var firstNonopt: nat
    var lastNonopt: nat

    constructor ()
      ensures optind == 1 && !initialized && optopt == QUESTION && optarg == None
    {
      optind, optarg, optopt, initialized := 1, None, QUESTION, false;
      nextchar, firstNonopt, lastNonopt := "", 0, 0;
    }

    // ----- the state as the next call will see it

    /** The next call initializes the scan. */
    predicate Fresh()
      reads this
    {
      optind == 0 || !initialized
    }

    function Start(): nat
      reads this
    {
      if optind == 0 then 1 else optind
    }

    function Cluster(): string
      reads this
    {
      if Fresh() then "" else nextchar
    }

    function FirstSkipped(): nat
      reads this
    {
      if Fresh() then Start() else Min(firstNonopt, optind)
    }

    function EndSkipped(): nat
      reads this
    {
      if Fresh() then Start() else Min(lastNonopt, optind)
    }

    function ViewOf(argv: array<string>): View
      reads this, argv
    {
      View(argv[..], Start(), Cluster(), FirstSkipped(), EndSkipped())
    }

    /** What the source relies on: between calls the caller may move `optind` back to any element,
        but only after a complete element. */
    ghost predicate Valid(argv: array<string>, cfg: Config)
      reads this, argv
    {
      argv.Length > 0 ==>
        && Sound(ViewOf(argv), cfg)
        && (Cluster() != "" ==> firstNonopt <= lastNonopt <= optind)
    }

    // ----- the scan

    /** Exchange the skipped non-options with the options that follow them. */
    method DoExchange(argv: array<string>)
      requires firstNonopt <= lastNonopt <= optind <= argv.Length
      modifies this`firstNonopt, this`lastNonopt, argv
      ensures argv[..] == Swapped(old(argv[..]), old(firstNonopt), old(lastNonopt), optind)
      ensures firstNonopt == old(firstNonopt) + (optind - old(lastNonopt)) && lastNonopt == optind
    {
      SwapAdjacent(argv, firstNonopt, lastNonopt, optind);
      firstNonopt := firstNonopt + (optind - lastNonopt);
      lastNonopt := optind;
    }

    /** The start of a call: the first one initializes the scan. */
    method Begin(argv: array<string>, cfg: Config)
      requires Valid(argv, cfg) && argv.Length > 0
      modifies this`optind, this`optarg, this`initialized, this`nextchar, this`firstNonopt, this`lastNonopt
      ensures initialized && optind > 0 && optarg == None
      ensures ViewOf(argv) == old(ViewOf(argv)) && nextchar == Cluster()
      ensures nextchar != "" ==> firstNonopt <= lastNonopt <= optind
    {
      optarg := None;
      if optind == 0 || !initialized {
        if optind == 0 {
          optind := 1;
        }
        firstNonopt, lastNonopt := optind, optind;
        nextchar := "";
        initialized := true;
      }
    }

    /** Put options processed since the last skip in front of the skipped non-options. */
    method Regroup(argv: array<string>, ghost rest: Outcome)
      requires optind <= argv.Length && Min(firstNonopt, optind) <= Min(lastNonopt, optind)
      modifies this`firstNonopt, this`lastNonopt, argv
      ensures firstNonopt <= optind && argv[optind..] == old(argv[optind..])
      ensures var f, l := Min(old(firstNonopt), optind), Min(old(lastNonopt), optind);
        && Layout(argv[..], firstNonopt, optind, optind, rest) == Layout(old(argv[..]), f, l, optind, rest)
        && firstNonopt == f + (optind - l)
    {
      hide Layout, Swapped;
      if lastNonopt > optind {
        lastNonopt := optind;
      }
      if firstNonopt > optind {
        firstNonopt := optind;
      }
      if firstNonopt != lastNonopt && lastNonopt != optind {
        LayoutExchange(argv[..], firstNonopt, lastNonopt, optind, rest);
        DoExchange(argv);
      } else if lastNonopt != optind {
        LayoutNoOthers(argv[..], firstNonopt, optind, rest);
        firstNonopt := optind;
      }
    }

    /** Skip non-options. */
    method SkipNonOptions(argv: array<string>, cfg: Config)
      requires firstNonopt <= optind <= argv.Length
      modifies this`optind, this`lastNonopt
      ensures old(optind) <= optind <= argv.Length && lastNonopt == optind
      ensures optind < argv.Length ==> !NonOption(argv[optind])
      ensures var a, o, was := argv[..], Scan(cfg, "", argv[optind..]), Scan(cfg, "", argv[old(optind)..]);
        && o.events == was.events && o.options == was.options
        && Layout(a, firstNonopt, optind, optind, o) == Layout(a, firstNonopt, old(optind), old(optind), was)
    {
      hide Scan, Layout;
      while optind < argv.Length && NonOption(argv[optind])
        invariant old(optind) <= optind <= argv.Length
        invariant var a, o, was := argv[..], Scan(cfg, "", argv[optind..]), Scan(cfg, "", argv[old(optind)..]);
          && o.events == was.events && o.options == was.options
          && Layout(a, firstNonopt, optind, optind, o) == Layout(a, firstNonopt, old(optind), old(optind), was)
      {
        assert argv[optind..][1..] == argv[optind + 1..];
        ScanSkips(cfg, argv[optind..]);
        LayoutSkip(argv[..], firstNonopt, optind, Scan(cfg, "", argv[optind + 1..]));
        optind := optind + 1;
      }
      lastNonopt := optind;
    }

    /** `--` ends the options: it is grouped with them and everything behind it is a non-option. */
    method TakeEndMark(argv: array<string>)
      requires firstNonopt <= lastNonopt == optind < argv.Length && argv[optind] == END_MARK
      modifies this`optind, this`firstNonopt, this`lastNonopt, argv
      ensures optind == lastNonopt == argv.Length
      ensures argv[..] == Layout(old(argv[..]), old(firstNonopt), old(optind), old(optind),
                                 Outcome([], [END_MARK], old(argv[optind + 1..])))
      ensures firstNonopt == old(firstNonopt) + 1
    {
      LayoutEndMark(argv[..], firstNonopt, optind);
      optind := optind + 1;
      if firstNonopt != lastNonopt && lastNonopt != optind {
        DoExchange(argv);
      } else if firstNonopt == lastNonopt {
        SwappedEmptyBlock(argv[..], firstNonopt, lastNonopt, optind);
        firstNonopt := optind;
      }
      lastNonopt := argv.Length;
      optind := argv.Length;
    }

    /** Move to the next option element, or to the end of the scan. */
    method Advance(argv: array<string>, cfg: Config) returns (done: bool)
      requires initialized && optind > 0 && nextchar == "" && Sound(ViewOf(argv), cfg)
      modifies this`optind, this`firstNonopt, this`lastNonopt, argv
      ensures done ==>
          && PlanOf(old(ViewOf(argv)), cfg) == Plan([], argv[..], optind)
          && 1 <= optind <= argv.Length && 1 <= firstNonopt <= lastNonopt
      ensures !done ==>
          && 1 <= firstNonopt <= lastNonopt == optind < argv.Length
          && old(optind) <= optind
          && !NonOption(argv[optind]) && argv[optind] != END_MARK
          && PlanOf(View(argv[..], optind, "", firstNonopt, optind), cfg) == PlanOf(old(ViewOf(argv)), cfg)
    {
      hide Take, Finished, Layout;
      ghost var rest := Scan(cfg, "", argv[optind..]);
      Regroup(argv, rest);
      SkipNonOptions(argv, cfg);
      rest := Scan(cfg, "", argv[optind..]);
      if optind != argv.Length && argv[optind] == END_MARK {
        assert argv[optind..][1..] == argv[optind + 1..];
        TakeEndMark(argv);
      } else if optind == argv.Length {
        LayoutEnd(argv[..], firstNonopt, optind, rest);
      }
      if optind == argv.Length {
        if firstNonopt != lastNonopt {
          optind := firstNonopt;
        }
        return true;
      }
      return false;
    }

    /** The element at `optind` is read as a long option; `nextchar` is its text after "--". */
    method NextLong(argv: array<string>, cfg: Config) returns (e: Event)
      requires optind < argv.Length && cfg.long.Some?
      modifies this`optind, this`optarg, this`optopt, this`nextchar
      requires optarg == None
      ensures var t := LongStep(cfg, old(nextchar), argv[old(optind) + 1..]);
        && e == t.event && nextchar == t.rest && optind == old(optind) + 1 + t.used
      ensures optarg == e.arg && optopt == (if e.opt.Some? then e.opt.value else old(optopt))
    {
      var n := 0;
      while n < |nextchar| && nextchar[n] != '='
        invariant 0 <= n <= |nextchar|
        invariant forall j :: 0 <= j < n ==> nextchar[j] != '='
      {
        n := n + 1;
      }
      var body := nextchar;
      IndexOfIs(body, '=', n);
      var r := FindLongOption(cfg.long.value, body[..n]);
      ResolveResolves(cfg.long.value, body[..n]);
      ResolvesUnique(cfg.long.value, body[..n], r, Resolve(cfg.long.value, body[..n]));
      nextchar := "";
      optind := optind + 1;
      if !r.Found? {
        optopt := 0;
        return Event(QUESTION, None, Some(0), None, None);
      }
      var p := cfg.long.value[r.index];
      if n < |body| {
        if p.hasArg == 0 {
          optopt := p.val;
          return Event(QUESTION, None, Some(p.val), None, None);
        }
        optarg := Some(body[n + 1..]);
      } else if p.hasArg == 1 {
        if optind < argv.Length {
          optarg := Some(argv[optind]);
          optind := optind + 1;
        } else {
          optopt := p.val;
          var code := if |cfg.short| > 0 && cfg.short[0] == ':' then ':' as int else QUESTION;
          return Event(code, None, Some(p.val), None, None);
        }
      }
      match p.flag
      case Some(v) => e := Event(0, optarg, None, Some(r.index), Some((v, p.val)));
      case None => e := Event(p.val, optarg, None, Some(r.index), None);
    }

    /** Read the next character of a short option element. */
    method NextShort(argv: array<string>, cfg: Config) returns (e: Event)
      requires optind < argv.Length && nextchar != ""
      requires optarg == None
      modifies this`optind, this`optarg, this`optopt, this`nextchar
      ensures var t := ShortStep(cfg, old(nextchar), argv[old(optind) + 1..]);
        && e == t.event && nextchar == t.rest
        && optind == old(optind) + (if t.rest == "" then 1 + t.used else 0)
      ensures optarg == e.arg && optopt == (if e.opt.Some? then e.opt.value else old(optopt))
    {
      var c := nextchar[0];
      nextchar := nextchar[1..];
      var i := IndexOf(cfg.short, c);
      if nextchar == "" {
        optind := optind + 1;
      }
      if i == |cfg.short| || c == ':' {
        optopt := c as int;
        return Event(QUESTION, None, Some(c as int), None, None);
      }
      if i + 1 < |cfg.short| && cfg.short[i + 1] == ':' {
        if i + 2 < |cfg.short| && cfg.short[i + 2] == ':' {
          if nextchar != "" {
            optarg := Some(nextchar);
            optind := optind + 1;
          }
        } else if nextchar != "" {
          optarg := Some(nextchar);
          optind := optind + 1;
        } else if optind == argv.Length {
          optopt := c as int;
          var code := if cfg.short[0] == ':' then ':' as int else QUESTION;
          return Event(code, None, Some(c as int), None, None);
        } else {
          optarg := Some(argv[optind]);
          optind := optind + 1;
        }
        nextchar := "";
      }
      e := Event(c as int, optarg, None, None, None);
    }

    /** Decode the current option element: a whole long option or one short one. */
    method Decode(argv: array<string>, cfg: Config, ghost v: View) returns (e: Event)
      requires InOption(v, cfg) && initialized && optarg == None
      requires v == View(argv[..], optind, v.cluster, firstNonopt, lastNonopt)
      requires nextchar == if v.cluster != "" then v.cluster
                           else argv[optind][if IsLong(cfg, argv[optind]) then 2 else 1..]
      modifies this`optind, this`optarg, this`optopt, this`nextchar
      ensures e == TakenAt(v, cfg).event && ViewOf(argv) == After(v, TakenAt(v, cfg))
      ensures firstNonopt <= lastNonopt <= optind <= argv.Length
      ensures optarg == e.arg && optopt == (if e.opt.Some? then e.opt.value else old(optopt))
    {
      assert argv[..][optind..][1..] == argv[optind + 1..];
      if IsLong(cfg, argv[optind]) {
        e := NextLong(argv, cfg);
      } else {
        e := NextShort(argv, cfg);
      }
    }

    /** Unless a cluster is in progress, find the next option element and skip its punctuation. */
    method FindOption(argv: array<string>, cfg: Config) returns (done: bool, ghost v: View)
      requires initialized && optind > 0 && Sound(ViewOf(argv), cfg)
      requires nextchar != "" ==> firstNonopt <= lastNonopt <= optind
      modifies this`optind, this`nextchar, this`firstNonopt, this`lastNonopt, argv
      ensures done ==>
          && PlanOf(old(ViewOf(argv)), cfg) == Plan([], argv[..], optind)
          && nextchar == "" && 1 <= optind <= argv.Length && 1 <= firstNonopt <= lastNonopt
      ensures !done ==>
          && InOption(v, cfg) && v == View(argv[..], optind, old(nextchar), firstNonopt, lastNonopt)
          && PlanOf(old(ViewOf(argv)), cfg) == PlanOf(v, cfg)
          && Ahead(old(ViewOf(argv)), v)
          && nextchar == if v.cluster != "" then v.cluster
                         else argv[optind][if IsLong(cfg, argv[optind]) then 2 else 1..]
    {
      v := ViewOf(argv);
      done := false;
      if nextchar == "" {
        done := Advance(argv, cfg);
        if !done {
          v := View(argv[..], optind, "", firstNonopt, lastNonopt);
          var skip := if IsLong(cfg, argv[optind]) then 2 else 1;
          nextchar := argv[optind][skip..];
        }
      }
    }

    /** A call on a non-empty vector. */
    method Step(argv: array<string>, cfg: Config) returns (r: Option<Event>)
      requires argv.Length > 0 && Valid(argv, cfg)
      modifies this, argv
      ensures Valid(argv, cfg)
      ensures PlanOf(old(ViewOf(argv)), cfg)
              == if r.None? then Plan([], argv[..], optind) else PlanOf(ViewOf(argv), cfg).Before(r.value)
      ensures r.Some? ==> Closer(old(ViewOf(argv)), ViewOf(argv)) && firstNonopt <= lastNonopt <= optind
      ensures optarg == if r.None? then None else r.value.arg
      ensures optopt == if r.Some? && r.value.opt.Some? then r.value.opt.value else old(optopt)
      ensures r.None? ==> Cluster() == "" && Start() == optind
    {
      hide Scan, Layout, Take, Closer, Ahead, PlanOf, TakenAt, After;
      ghost var start := ViewOf(argv);
      Begin(argv, cfg);
      var done, v := FindOption(argv, cfg);
      if done {
        return None;
      }
      DecodingIsSound(v, cfg);
      DecodingKeepsPlan(v, cfg);
      AheadCloser(start, v, After(v, TakenAt(v, cfg)));
      var e := Decode(argv, cfg, v);
      return Some(e);
    }

    /** One call: the next answer, or `None` for the return of -1 at the end of the scan. */
    method Next(argv: array<string>, cfg: Config) returns (r: Option<Event>)
      requires Plain(cfg.short) && Valid(argv, cfg)
      modifies this, argv
      ensures Valid(argv, cfg)
      ensures argv.Length == 0 ==> r == None && unchanged(this)
      // The answer is the next one of the one-pass reading; the rest of the plan stands.
      ensures argv.Length > 0 ==>
          PlanOf(old(ViewOf(argv)), cfg)
          == if r.None? then Plan([], argv[..], optind) else PlanOf(ViewOf(argv), cfg).Before(r.value)
      // There is none exactly when the line is quiet from here on; after that the next call starts at
      // `optind`, so it ends at once again exactly when the line is quiet from there on.
      ensures argv.Length > 0 ==> (r.None? <==> old(Cluster()) == "" && Quiet(old(argv[Start()..])))
      ensures argv.Length > 0 && r.None? ==> Cluster() == "" && Start() == optind
      // Every answer makes progress, and the index variables stay in order.
      ensures r.Some? ==> Closer(old(ViewOf(argv)), ViewOf(argv)) && firstNonopt <= lastNonopt <= optind
      ensures argv.Length > 0 ==> optarg == if r.None? then None else r.value.arg
      ensures optopt == if r.Some? && r.value.opt.Some? then r.value.opt.value else old(optopt)
    {
      if argv.Length < 1 {
        return None;
      }
      hide Scan, Layout, Quiet;
      NothingPlanned(ViewOf(argv), cfg);
      r := Step(argv, cfg);
    }

    /** The caller's loop: ask for answers until the scan ends. */
    method ReadAll(argv: array<string>, cfg: Config) returns (events: seq<Event>)
      requires Plain(cfg.short) && Valid(argv, cfg) && argv.Length > 0
      modifies this, argv
      ensures PlanOf(old(ViewOf(argv)), cfg) == Plan(events, argv[..], optind)
    {
      hide Scan, Layout;
      ghost var p := PlanOf(ViewOf(argv), cfg);
      events := [];
      var r := Next(argv, cfg);
      while r.Some?
        invariant Valid(argv, cfg)
        invariant p == if r.None? then Plan(events, argv[..], optind)
          else PlanOf(ViewOf(argv), cfg).(events := events + [r.value] + PlanOf(ViewOf(argv), cfg).events)
        decreases r.Some?, ElementsLeft(ViewOf(argv)), |Cluster()|
      {
        events := events + [r.value];
        r := Next(argv, cfg);
      }
    }
  }

  /** A fresh scan of a whole command line: the answers are those of the one-pass reading, the vector
      becomes its first element, then every option element with its argument, then the rest, each
      group in its original order, and `optind` is the index of the first of the rest. */
  method ReadCommandLine(argv: array<string>, cfg: Config) returns (events: seq<Event>, optind: nat)
    requires Plain(cfg.short) && argv.Length > 0
    modifies argv
    ensures var o := Scan(cfg, "", old(argv[1..]));
      && events == o.events
      && argv[..] == [old(argv[0])] + o.options + o.others
      && optind == 1 + |o.options|
      && Interleaves(old(argv[1..]), o.options, o.others)
  {
    hide Scan;
    ghost var before := argv[..];
    assert before[1..] == argv[1..];
    var s := new Scanner();
    events := s.ReadAll(argv, cfg);
    optind := s.optind;
    ScanPartitions(cfg, "", before[1..]);
  }
}
