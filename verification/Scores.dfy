// The score of a message summed in the order the program adds it, line by line and then rule by rule,
// and summed as the verdict defines it, rule by rule only.
module Scores {
  import opened Header
  import opened Rules
  import opened Sums
  import opened Verdict

  function HitWeight(rx: Matcher, normal: bool, subject: string, e: Entry): Score -> int
  {
    (r: Score) => if !r.filter.negative && Hits(rx, normal, subject, r.filter, e) then r.score else 0
  }

  /** What one line adds. */
  function LineWeight(rx: Matcher, normal: bool, subject: string, rules: seq<Score>): Entry -> int
  {
    (e: Entry) => Sum(HitWeight(rx, normal, subject, e), rules)
  }

  function MissWeight(rx: Matcher, normal: bool, m: Mail): Score -> int
  {
    (r: Score) => if r.filter.negative then RuleWeight(rx, normal, m)(r) else 0
  }

  function PositiveWeight(rx: Matcher, normal: bool, subject: string, entries: seq<Entry>): Score -> int
  {
    (r: Score) =>
      if r.filter.negative then 0
      else r.score * Sum(HitTest(rx, normal, subject, r.filter), entries)
  }

  lemma {:induction false} OneMoreLine(rx: Matcher, normal: bool, subject: string, entries: seq<Entry>, e: Entry,
                                       rules: seq<Score>)
    ensures Sum(PositiveWeight(rx, normal, subject, entries + [e]), rules)
            == Sum(PositiveWeight(rx, normal, subject, entries), rules) + Sum(HitWeight(rx, normal, subject, e), rules)
  {
    hide Hits;
    if rules != [] {
      var n := |rules| - 1;
      var r := rules[n];
      OneMoreLine(rx, normal, subject, entries, e, rules[..n]);
      SumOneMore(HitTest(rx, normal, subject, r.filter), entries, e);
      var h := Sum(HitTest(rx, normal, subject, r.filter), entries);
      assert r.score * (h + 1) == r.score * h + r.score;
    }
  }

  lemma {:induction false} NoLines(rx: Matcher, normal: bool, subject: string, rules: seq<Score>)
    ensures Sum(PositiveWeight(rx, normal, subject, []), rules) == 0
  {
    if rules != [] {
      NoLines(rx, normal, subject, rules[..|rules| - 1]);
    }
  }

  /** Adding line by line is adding rule by rule. */
  lemma {:induction false} LinesAreRules(rx: Matcher, normal: bool, subject: string, entries: seq<Entry>,
                                         rules: seq<Score>)
    ensures Sum(LineWeight(rx, normal, subject, rules), entries)
            == Sum(PositiveWeight(rx, normal, subject, entries), rules)
  {
    if entries == [] {
      NoLines(rx, normal, subject, rules);
    } else {
      var n := |entries| - 1;
      LinesAreRules(rx, normal, subject, entries[..n], rules);
      OneMoreLine(rx, normal, subject, entries[..n], entries[n], rules);
      assert entries == entries[..n] + [entries[n]];
    }
  }

  lemma {:induction false} PositivePlusMiss(rx: Matcher, normal: bool, m: Mail, rules: seq<Score>)
    ensures Sum(PositiveWeight(rx, normal, m.normalSubject, m.entries), rules) + Sum(MissWeight(rx, normal, m), rules)
            == Sum(RuleWeight(rx, normal, m), rules)
  {
    if rules != [] {
      PositivePlusMiss(rx, normal, m, rules[..|rules| - 1]);
    }
  }

  /** The total in the program's order: size score, positive rules line by line, negative rules. */
  lemma ProgramOrderTotal(rx: Matcher, s: Settings, m: Mail)
    ensures SizePart(s, m) + Sum(LineWeight(rx, s.normal, m.normalSubject, s.scores), m.entries)
            + Sum(MissWeight(rx, s.normal, m), s.scores) == TotalScore(rx, s, m)
  {
    LinesAreRules(rx, s.normal, m.normalSubject, m.entries, s.scores);
    PositivePlusMiss(rx, s.normal, m, s.scores);
  }

  lemma {:induction false} NoHits(rx: Matcher, normal: bool, subject: string, f: Filter, entries: seq<Entry>)
    ensures Sum(HitTest(rx, normal, subject, f), entries) >= 0
    ensures Sum(HitTest(rx, normal, subject, f), entries) == 0
            <==> forall e :: e in entries ==> !Hits(rx, normal, subject, f, e)
  {
    hide Hits;
    if entries != [] {
      var n := |entries| - 1;
      NoHits(rx, normal, subject, f, entries[..n]);
      assert entries == entries[..n] + [entries[n]];
    }
  }

  lemma MissWeightIs(rx: Matcher, normal: bool, m: Mail, r: Score)
    ensures MissWeight(rx, normal, m)(r)
            == if r.filter.negative && m.entries != []
                  && forall e :: e in m.entries ==> !Hits(rx, normal, m.normalSubject, r.filter, e)
               then r.score else 0
  {
    NoHits(rx, normal, m.normalSubject, r.filter, m.entries);
    hide Sum, Hits;
    assert r.filter.negative ==> MissWeight(rx, normal, m)(r) == RuleWeight(rx, normal, m)(r);
  }
}
