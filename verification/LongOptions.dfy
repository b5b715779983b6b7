// Resolution of a possibly abbreviated long option name against the option table.
module LongOptions {
  import opened Common

  /** One row of the table. `flag` names the caller's variable that receives `val`, if any. */
  datatype LongOption = LongOption(name: string, hasArg: int, flag: Option<nat>, val: int)

  datatype Resolution = Unknown | Ambiguous | Found(index: nat)

  /** Two rows a caller cannot tell apart by their effect. */
  predicate SameEffect(p: LongOption, q: LongOption)
  {
    p.hasArg == q.hasArg && p.flag == q.flag && p.val == q.val
  }

  /** The typed name abbreviates the row's name (an exact match included). */
  predicate Abbreviates(name: string, p: LongOption)
  {
    name <= p.name
  }

  /** What a resolution has to satisfy, without mention of any search. */
  ghost predicate Resolves(table: seq<LongOption>, name: string, r: Resolution)
  {
    match r
    case Found(i) =>
      && i < |table|
      && Abbreviates(name, table[i])
      && if exists j :: 0 <= j < |table| && table[j].name == name
         then table[i].name == name && forall j :: 0 <= j < i ==> table[j].name != name
         else
           && (forall j :: 0 <= j < i ==> !Abbreviates(name, table[j]))
           && (forall j :: 0 <= j < |table| && Abbreviates(name, table[j]) ==> SameEffect(table[i], table[j]))
    case Ambiguous =>
      && (forall j :: 0 <= j < |table| ==> table[j].name != name)
      && exists i, j :: 0 <= i < j < |table|
                        && Abbreviates(name, table[i]) && Abbreviates(name, table[j])
                        && !SameEffect(table[i], table[j])
    case Unknown =>
      forall j :: 0 <= j < |table| ==> !Abbreviates(name, table[j])
  }

  /** The search loop of the scanner: stop at the first exact match, otherwise remember the first
      abbreviated row and whether a later one differs from it in effect. */
  method FindLongOption(table: seq<LongOption>, name: string) returns (r: Resolution)
    ensures Resolves(table, name, r)
  {
    var found: Option<nat> := None;
    var ambiguous := false;
    var i := 0;
    while i < |table|
      invariant 0 <= i <= |table|
      invariant forall j :: 0 <= j < i ==> table[j].name != name
      invariant found.None? ==> !ambiguous && forall j :: 0 <= j < i ==> !Abbreviates(name, table[j])
      invariant found.Some? ==>
          && found.value < i
          && Abbreviates(name, table[found.value])
          && (forall j :: 0 <= j < found.value ==> !Abbreviates(name, table[j]))
      invariant found.Some? && !ambiguous ==>
          forall j :: 0 <= j < i && Abbreviates(name, table[j]) ==> SameEffect(table[found.value], table[j])
      invariant ambiguous ==>
          exists j :: found.value < j < i && Abbreviates(name, table[j]) && !SameEffect(table[found.value], table[j])
    {
      if name <= table[i].name {
        if |name| == |table[i].name| {
          return Found(i);
        } else if found.None? {
          found := Some(i);
        } else if !SameEffect(table[found.value], table[i]) {
          ambiguous := true;
        }
      }
      i := i + 1;
    }
    if ambiguous {
      return Ambiguous;
    }
    match found
    case Some(k) => r := Found(k);
    case None => r := Unknown;
  }

  /** The declarative reading determines the answer. */
  lemma ResolvesUnique(table: seq<LongOption>, name: string, r: Resolution, q: Resolution)
    requires Resolves(table, name, r) && Resolves(table, name, q)
    ensures r == q
  {
    if r.Found? && q.Found? {
      assert !(r.index < q.index) && !(q.index < r.index);
    }
  }

  /** First row satisfying a test, or the table's length. */
  function First(table: seq<LongOption>, test: LongOption -> bool): (i: nat)
    ensures i <= |table|
  {
    if table == [] || test(table[0]) then 0 else 1 + First(table[1..], test)
  }

  lemma {:induction false} FirstFinds(table: seq<LongOption>, test: LongOption -> bool)
    ensures var i := First(table, test);
      && (i < |table| ==> test(table[i]))
      && forall j :: 0 <= j < i ==> !test(table[j])
  {
    if table != [] && !test(table[0]) {
      FirstFinds(table[1..], test);
      assert forall j :: 1 <= j < |table| ==> table[j] == table[1..][j - 1];
    }
  }

  predicate AllAgree(table: seq<LongOption>, name: string, p: LongOption)
  {
    forall j :: 0 <= j < |table| && Abbreviates(name, table[j]) ==> SameEffect(p, table[j])
  }

  /** The resolution as a value, for use by the specification of the scanner. */
  function Resolve(table: seq<LongOption>, name: string): (r: Resolution)
    ensures r.Found? ==> r.index < |table|
  {
    var exact := First(table, (p: LongOption) => p.name == name);
    var found := First(table, (p: LongOption) => Abbreviates(name, p));
    if exact < |table| then Found(exact)
    else if found == |table| then Unknown
    else if AllAgree(table, name, table[found]) then Found(found)
    else Ambiguous
  }

  lemma ResolveResolves(table: seq<LongOption>, name: string)
    ensures Resolves(table, name, Resolve(table, name))
  {
    var found := First(table, (p: LongOption) => Abbreviates(name, p));
    FirstFinds(table, (p: LongOption) => p.name == name);
    FirstFinds(table, (p: LongOption) => Abbreviates(name, p));
    if Resolve(table, name).Ambiguous? {
      var j :| 0 <= j < |table| && Abbreviates(name, table[j]) && !SameEffect(table[found], table[j]);
      assert found < j;
    }
  }

  // ----- independence of the table's order

  /** Two outcomes a caller cannot tell apart. */
  predicate SameOutcome(t: seq<LongOption>, r: Resolution, u: seq<LongOption>, q: Resolution)
  {
    match (r, q)
    case (Found(i), Found(j)) => i < |t| && j < |u| && SameEffect(t[i], u[j])
    case _ => r == q
  }

  /** The rows named exactly `name` all have one effect. */
  ghost predicate ExactRowsAgree(table: seq<LongOption>, name: string)
  {
    forall p, q :: p in table && q in table && p.name == name && q.name == name ==> SameEffect(p, q)
  }

  ghost predicate OrderFree(table: seq<LongOption>, name: string)
  {
    forall u: seq<LongOption> :: multiset(u) == multiset(table) ==>
      SameOutcome(table, Resolve(table, name), u, Resolve(u, name))
  }

  lemma SameRows(t: seq<LongOption>, u: seq<LongOption>)
    requires multiset(t) == multiset(u)
    ensures forall p :: p in t <==> p in u
  {
    forall p
      ensures p in t <==> p in u
    {
      assert p in t <==> p in multiset(t);
      assert p in u <==> p in multiset(u);
    }
  }

  ghost predicate RowsOf(t: seq<LongOption>, u: seq<LongOption>)
  {
    forall j :: 0 <= j < |t| ==> t[j] in u
  }

  lemma UnknownStays(t: seq<LongOption>, u: seq<LongOption>, name: string)
    requires RowsOf(u, t) && Resolves(t, name, Unknown)
    ensures Resolves(u, name, Unknown)
  {
  }

  lemma FoundStays(t: seq<LongOption>, u: seq<LongOption>, name: string, i: nat, q: Resolution)
    requires RowsOf(t, u) && RowsOf(u, t) && ExactRowsAgree(t, name)
    requires Resolves(t, name, Found(i)) && Resolves(u, name, q)
    ensures SameOutcome(t, Found(i), u, q)
  {
    assert t[i] in u;
    if t[i].name == name {
      assert exists k :: 0 <= k < |u| && u[k].name == name;
      match q {
        case Found(j) => assert u[j] in t;
        case _ =>
      }
    } else {
      assert forall k :: 0 <= k < |u| ==> u[k].name != name;
    }
  }

  lemma ReorderKeepsOutcome(t: seq<LongOption>, u: seq<LongOption>, name: string)
    requires multiset(t) == multiset(u)
    requires ExactRowsAgree(t, name)
    ensures SameOutcome(t, Resolve(t, name), u, Resolve(u, name))
  {
    ResolveResolves(t, name);
    ResolveResolves(u, name);
    SameRows(t, u);
    assert RowsOf(t, u) && RowsOf(u, t) && ExactRowsAgree(u, name);
    hide Resolve, Resolves, ExactRowsAgree, RowsOf;
    var r, q := Resolve(t, name), Resolve(u, name);
    match (r, q) {
      case (Found(i), _) => FoundStays(t, u, name, i, q);
      case (_, Found(j)) => FoundStays(u, t, name, j, r);
      case (Unknown, _) =>
        UnknownStays(t, u, name);
        ResolvesUnique(u, name, q, Unknown);
      case (_, Unknown) =>
        UnknownStays(u, t, name);
        ResolvesUnique(t, name, r, Unknown);
      case (Ambiguous, Ambiguous) =>
    }
  }

  /** Moving a row of the typed name to the front makes it the one that is found. */
  lemma FrontRowWins(table: seq<LongOption>, name: string, j: nat) returns (u: seq<LongOption>)
    requires j < |table| && table[j].name == name
    ensures multiset(u) == multiset(table)
    ensures |u| == |table| && u[0] == table[j] && Resolve(u, name) == Found(0)
  {
    u := [table[j]] + table[..j] + table[j + 1..];
    assert table == table[..j] + [table[j]] + table[j + 1..];
    assert u[0].name == name;
    assert exists k :: 0 <= k < |u| && u[k].name == name;
    ResolveResolves(u, name);
    ResolvesUnique(u, name, Found(0), Resolve(u, name));
  }

  /** For every table and every typed name: the outcome is the same for every order of the rows
      exactly when the rows of that very name agree in effect; in particular for distinct names. */
  lemma OrderFreeIff(table: seq<LongOption>, name: string)
    ensures OrderFree(table, name) <==> ExactRowsAgree(table, name)
  {
    if ExactRowsAgree(table, name) {
      forall u: seq<LongOption> | multiset(u) == multiset(table)
        ensures SameOutcome(table, Resolve(table, name), u, Resolve(u, name))
      {
        ReorderKeepsOutcome(table, u, name);
      }
    } else {
      ResolveResolves(table, name);
      var p, q :| p in table && q in table && p.name == name && q.name == name && !SameEffect(p, q);
      var i :| 0 <= i < |table| && table[i] == p;
      var j :| 0 <= j < |table| && table[j] == q;
      var u := FrontRowWins(table, name, i);
      var w := FrontRowWins(table, name, j);
      var r := Resolve(table, name);
      assert !(SameOutcome(table, r, u, Found(0)) && SameOutcome(table, r, w, Found(0)));
    }
  }

  /** A concrete table of two rows of one name: whichever comes first is found. */
  lemma OrderMatters()
    ensures var p, q := LongOption("a", 0, None, 1), LongOption("a", 0, None, 2);
      && multiset([p, q]) == multiset([q, p])
      && !SameOutcome([p, q], Resolve([p, q], "a"), [q, p], Resolve([q, p], "a"))
  {
    var p, q := LongOption("a", 0, None, 1), LongOption("a", 0, None, 2);
    ResolveResolves([p, q], "a");
    ResolveResolves([q, p], "a");
    assert [p, q][0].name == "a" && [q, p][0].name == "a";
    ResolvesUnique([p, q], "a", Found(0), Resolve([p, q], "a"));
    ResolvesUnique([q, p], "a", Found(0), Resolve([q, p], "a"));
  }
}
