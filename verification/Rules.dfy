// The rule store: filters are appended and the negative ones are counted.
module Rules {
  import opened Common

  datatype CaseMode = Sensitive | Insensitive

  datatype Filter = Filter(expression: string, mode: CaseMode, negative: bool)

  datatype Score = Score(filter: Filter, score: int)

  datatype SizeScore = SizeScore(score: int, size: int)

  /** Everything the verdict depends on. */
  datatype Settings = Settings(
    allows: seq<Filter>, denies: seq<Filter>, scores: seq<Score>,
    normal: bool, delDuplicates: bool, maxLength: int,
    maxSizeAllow: int, maxSizeDeny: int, sizeScore: SizeScore, highScore: int)

  function CountNegative(fs: seq<Filter>): nat
  {
    if fs == [] then 0 else CountNegative(fs[..|fs| - 1]) + if fs[|fs| - 1].negative then 1 else 0
  }

  function Filters(ss: seq<Score>): (fs: seq<Filter>)
    ensures |fs| == |ss| && forall k :: 0 <= k < |ss| ==> fs[k] == ss[k].filter
  {
    seq(|ss|, k requires 0 <= k < |ss| => ss[k].filter)
  }

  lemma {:induction false} NoNegatives(fs: seq<Filter>)
    ensures CountNegative(fs) == 0 <==> forall f :: f in fs ==> !f.negative
  {
    if fs != [] {
      var n := |fs| - 1;
      NoNegatives(fs[..n]);
      assert forall f :: f in fs <==> f in fs[..n] || f == fs[n];
    }
  }

  lemma CountOneMore(fs: seq<Filter>, f: Filter)
    ensures CountNegative(fs + [f]) == CountNegative(fs) + if f.negative then 1 else 0
  {
    assert (fs + [f])[..|fs|] == fs;
  }

  lemma CountOneMoreScore(ss: seq<Score>, r: Score)
    ensures CountNegative(Filters(ss + [r])) == CountNegative(Filters(ss)) + if r.filter.negative then 1 else 0
  {
    assert Filters(ss + [r]) == Filters(ss) + [r.filter];
    CountOneMore(Filters(ss), r.filter);
  }

  class Preferences {
    var allows: seq<Filter>
    var denies: seq<Filter>
    var scores: seq<Score>
    var defaultCase: CaseMode
    var normal: bool
    var delDuplicates: bool
    var maxLength: int
    var maxSizeAllow: int
    var maxSizeDeny: int
    var sizeScore: SizeScore
    var highScore: int
    var testMode: bool
    var negativeAllows: int
    var negativeDenies: int
    var negativeScores: int

    constructor ()
      ensures Valid() && View() == Settings([], [], [], false, false, 0, 0, 0, SizeScore(0, 0), 100)
      ensures defaultCase == Insensitive && !testMode
    {
      allows, denies, scores := [], [], [];
      defaultCase, normal, delDuplicates, testMode := Insensitive, false, false, false;
      maxLength, maxSizeAllow, maxSizeDeny, sizeScore, highScore := 0, 0, 0, SizeScore(0, 0), 100;
      negativeAllows, negativeDenies, negativeScores := 0, 0, 0;
    }

    /** The counters agree with the rule vectors. */
    ghost predicate Valid()
      reads this
    {
      && negativeAllows == CountNegative(allows)
      && negativeDenies == CountNegative(denies)
      && negativeScores == CountNegative(Filters(scores))
    }

    function View(): Settings
      reads this
    {
      Settings(allows, denies, scores, normal, delDuplicates, maxLength, maxSizeAllow, maxSizeDeny, sizeScore,
               highScore)
    }

    /** The case mode a rule keyword asks for. */
    function ModeOf(keyword: string, caseWord: string, nocaseWord: string): CaseMode
      reads this`defaultCase
    {
      if SameNoCase(keyword, caseWord) then Sensitive
      else if SameNoCase(keyword, nocaseWord) then Insensitive
      else defaultCase
    }

    method AddAllowRule(keyword: string, operator: string, id: string)
      requires Valid()
      modifies this`allows, this`negativeAllows
      ensures Valid()
      ensures allows == old(allows) + [Filter(id, ModeOf(keyword, "allow_case", "allow_nocase"), operator != "=")]
    {
      hide CountNegative, Filters, SameNoCase, ModeOf;
      var negative := false;
      if operator != "=" {
        negativeAllows := negativeAllows + 1;
        negative := true;
      }
      var f := Filter(id, ModeOf(keyword, "allow_case", "allow_nocase"), negative);

      CountOneMore(allows, f);
      allows := allows + [f];
    }

    method AddDenyRule(keyword: string, operator: string, id: string)
      requires Valid()
      modifies this`denies, this`negativeDenies
      ensures Valid()
      ensures denies == old(denies) + [Filter(id, ModeOf(keyword, "deny_case", "deny_nocase"), operator != "=")]
    {
      hide CountNegative, Filters, SameNoCase, ModeOf;
      var negative := false;
      if operator != "=" {
        negativeDenies := negativeDenies + 1;
        negative := true;
      }
      var f := Filter(id, ModeOf(keyword, "deny_case", "deny_nocase"), negative);

      CountOneMore(denies, f);
      denies := denies + [f];
    }

    method AddScore(keyword: string, score: int, operator: string, id: string)
      requires Valid()
      modifies this`scores, this`negativeScores
      ensures Valid()
      ensures scores == old(scores)
                        + [Score(Filter(id, ModeOf(keyword, "score_case", "score_nocase"), operator != "="), score)]
    {
      hide CountNegative, Filters, SameNoCase, ModeOf;
      var negative := false;
      if operator != "=" {
        negativeScores := negativeScores + 1;
        negative := true;
      }
      var f := Filter(id, ModeOf(keyword, "score_case", "score_nocase"), negative);

      CountOneMoreScore(scores, Score(f, score));
      scores := scores + [Score(f, score)];
    }
  }

  /** The settings are the fields of the store. */
  lemma ViewIs(p: Preferences)
    ensures p.View().allows == p.allows && p.View().denies == p.denies && p.View().scores == p.scores
    ensures p.View().normal == p.normal && p.View().delDuplicates == p.delDuplicates
    ensures p.View().maxLength == p.maxLength && p.View().highScore == p.highScore
    ensures p.View().maxSizeAllow == p.maxSizeAllow && p.View().maxSizeDeny == p.maxSizeDeny
    ensures p.View().sizeScore == p.sizeScore
  {
  }

  /** Which keyword asks for which case mode, however it is capitalised. */
  lemma Keywords(p: Preferences)
    ensures p.ModeOf("DENY_CASE", "deny_case", "deny_nocase") == Sensitive
    ensures p.ModeOf("Allow_NoCase", "allow_case", "allow_nocase") == Insensitive
    ensures p.ModeOf("SCORE", "score_case", "score_nocase") == p.defaultCase
  {
    SameNoCaseIff("DENY_CASE", "deny_case");
    SameNoCaseIff("Allow_NoCase", "allow_case");
    SameNoCaseIff("Allow_NoCase", "allow_nocase");
    SameNoCaseIff("SCORE", "score_case");
    SameNoCaseIff("SCORE", "score_nocase");
    hide SameNoCase;
  }

  lemma KeywordDecides(p: Preferences, keyword: string, caseWord: string, nocaseWord: string)
    requires |caseWord| != |nocaseWord|
    ensures SameNoCase(keyword, caseWord) ==> p.ModeOf(keyword, caseWord, nocaseWord) == Sensitive
    ensures SameNoCase(keyword, nocaseWord) ==> p.ModeOf(keyword, caseWord, nocaseWord) == Insensitive
    ensures !SameNoCase(keyword, caseWord) && !SameNoCase(keyword, nocaseWord) ==>
      p.ModeOf(keyword, caseWord, nocaseWord) == p.defaultCase
  {
  }
}
