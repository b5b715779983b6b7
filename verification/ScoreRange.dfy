// The running total of the score passes, and when it never leaves the range of the program's integers.
module ScoreRange {
  import opened Header
  import opened Rules
  import opened Sums
  import opened Verdict
  import opened Scores

  function Abs(x: int): nat
  {
    if x < 0 then -x else x
  }

  lemma {:induction false} SumAbs<T>(f: T -> int, g: T -> int, xs: seq<T>)
    requires forall x :: x in xs ==> Abs(f(x)) <= g(x)
    ensures Abs(Sum(f, xs)) <= Sum(g, xs)
  {
    if xs != [] {
      SumAbs(f, g, xs[..|xs| - 1]);
    }
  }

  lemma {:induction false} SumAbsConstant<T>(f: T -> int, b: nat, xs: seq<T>)
    requires forall x :: x in xs ==> Abs(f(x)) <= b
    ensures Abs(Sum(f, xs)) <= |xs| * b
  {
    if xs != [] {
      SumAbsConstant(f, b, xs[..|xs| - 1]);
      assert (|xs| - 1) * b + b == |xs| * b;
    }
  }

  function BoundOf(negative: bool, limit: nat): Score -> int
  {
    (r: Score) => if r.filter.negative == negative then limit else 0
  }

  lemma {:induction false} BoundsTogether(limit: nat, rules: seq<Score>)
    ensures Sum(BoundOf(false, limit), rules) + Sum(BoundOf(true, limit), rules) == |rules| * limit
    ensures Sum(BoundOf(false, limit), rules) >= 0 && Sum(BoundOf(true, limit), rules) >= 0
  {
    if rules != [] {
      BoundsTogether(limit, rules[..|rules| - 1]);
      assert (|rules| - 1) * limit + limit == |rules| * limit;
    }
  }

  lemma PrefixBound(negative: bool, limit: nat, rules: seq<Score>, j: nat)
    requires j <= |rules|
    ensures 0 <= Sum(BoundOf(negative, limit), rules[..j]) <= Sum(BoundOf(negative, limit), rules)
  {
    SumAppend(BoundOf(negative, limit), rules[..j], rules[j..]);
    assert rules == rules[..j] + rules[j..];
    SumNonNegative(BoundOf(negative, limit), rules[..j]);
    SumNonNegative(BoundOf(negative, limit), rules[j..]);
  }

  ghost predicate ScoresWithin(s: Settings, limit: nat)
  {
    Abs(s.sizeScore.score) <= limit && forall r :: r in s.scores ==> Abs(r.score) <= limit
  }

  lemma LineBound(rx: Matcher, s: Settings, m: Mail, limit: nat, e: Entry, j: nat)
    requires ScoresWithin(s, limit) && j <= |s.scores|
    ensures Abs(Sum(HitWeight(rx, s.normal, m.normalSubject, e), s.scores[..j])) <= Sum(BoundOf(false, limit), s.scores)
  {
    hide Hits;
    SumAbs(HitWeight(rx, s.normal, m.normalSubject, e), BoundOf(false, limit), s.scores[..j]);
    PrefixBound(false, limit, s.scores, j);
  }

  lemma LinesBound(rx: Matcher, s: Settings, m: Mail, limit: nat, i: nat)
    requires ScoresWithin(s, limit) && i <= |m.entries|
    ensures Abs(Sum(LineWeight(rx, s.normal, m.normalSubject, s.scores), m.entries[..i]))
            <= i * Sum(BoundOf(false, limit), s.scores)
  {
    var pb := Sum(BoundOf(false, limit), s.scores);
    BoundsTogether(limit, s.scores);
    var w := LineWeight(rx, s.normal, m.normalSubject, s.scores);
    assert s.scores[..|s.scores|] == s.scores;
    forall e | e in m.entries[..i]
      ensures Abs(w(e)) <= pb
    {
      LineBound(rx, s, m, limit, e, |s.scores|);
    }
    SumAbsConstant(w, pb, m.entries[..i]);
  }

  /** The running total in the positive pass, before rule `j` at line `i`. */
  function TotalAtLine(rx: Matcher, s: Settings, m: Mail, i: nat, j: nat): int
    requires i < |m.entries| && j <= |s.scores|
  {
    SizePart(s, m) + Sum(LineWeight(rx, s.normal, m.normalSubject, s.scores), m.entries[..i])
    + Sum(HitWeight(rx, s.normal, m.normalSubject, m.entries[i]), s.scores[..j])
  }

  /** The running total in the negative pass, before rule `j`. */
  function TotalAtMiss(rx: Matcher, s: Settings, m: Mail, j: nat): int
    requires j <= |s.scores|
  {
    SizePart(s, m) + Sum(LineWeight(rx, s.normal, m.normalSubject, s.scores), m.entries)
    + Sum(MissWeight(rx, s.normal, m), s.scores[..j])
  }

  lemma Grows(a: nat, b: nat, c: nat)
    requires a <= b
    ensures a * c <= b * c
  {
  }

  lemma PositivePassInRange(rx: Matcher, s: Settings, m: Mail, limit: nat, i: nat, j: nat)
    requires ScoresWithin(s, limit) && i < |m.entries| && j <= |s.scores|
    ensures Abs(TotalAtLine(rx, s, m, i, j)) <= (|m.entries| * |s.scores| + 1) * limit
  {
    var pb := Sum(BoundOf(false, limit), s.scores);
    BoundsTogether(limit, s.scores);
    LinesBound(rx, s, m, limit, i);
    LineBound(rx, s, m, limit, m.entries[i], j);
    assert i * pb + pb == (i + 1) * pb;
    Grows(i + 1, |m.entries|, pb);
    Product(|m.entries|, |s.scores|, limit, pb);
  }

  lemma Product(e: nat, r: nat, limit: nat, b: nat)
    requires b <= r * limit
    ensures e * b + limit <= (e * r + 1) * limit
  {
    Grows(b, r * limit, e);
    assert e * (r * limit) == (e * r) * limit;
    assert (e * r) * limit + limit == (e * r + 1) * limit;
  }

  lemma MissBound(rx: Matcher, s: Settings, m: Mail, limit: nat, r: Score)
    requires Abs(r.score) <= limit
    ensures Abs(MissWeight(rx, s.normal, m)(r)) <= BoundOf(true, limit)(r)
    ensures m.entries == [] ==> MissWeight(rx, s.normal, m)(r) == 0
  {
    hide MissWeight;
    MissWeightIs(rx, s.normal, m, r);
  }

  lemma MissesBound(rx: Matcher, s: Settings, m: Mail, limit: nat, j: nat)
    requires ScoresWithin(s, limit) && j <= |s.scores|
    ensures Abs(Sum(MissWeight(rx, s.normal, m), s.scores[..j])) <= |m.entries| * Sum(BoundOf(true, limit), s.scores)
  {
    hide Sum, MissWeight, BoundOf;
    var w := MissWeight(rx, s.normal, m);
    forall r | r in s.scores[..j]
      ensures Abs(w(r)) <= BoundOf(true, limit)(r) && (m.entries == [] ==> w(r) == 0)
    {
      MissBound(rx, s, m, limit, r);
    }
    PrefixBound(true, limit, s.scores, j);
    if m.entries == [] {
      SumAbsConstant(w, 0, s.scores[..j]);
    } else {
      SumAbs(w, BoundOf(true, limit), s.scores[..j]);
      Grows(1, |m.entries|, Sum(BoundOf(true, limit), s.scores));
    }
  }

  lemma BoundsAdd(a: int, b: int, c: int, e: nat, pb: nat, nb: nat, r: nat, limit: nat)
    requires Abs(a) <= limit && Abs(b) <= e * pb && Abs(c) <= e * nb && pb + nb == r * limit
    ensures Abs(a + b + c) <= (e * r + 1) * limit
  {
    assert e * pb + e * nb == e * (pb + nb);
    Product(e, r, limit, pb + nb);
  }

  lemma NegativePassInRange(rx: Matcher, s: Settings, m: Mail, limit: nat, j: nat)
    requires ScoresWithin(s, limit) && j <= |s.scores|
    ensures Abs(TotalAtMiss(rx, s, m, j)) <= (|m.entries| * |s.scores| + 1) * limit
  {
    var pb, nb := Sum(BoundOf(false, limit), s.scores), Sum(BoundOf(true, limit), s.scores);
    BoundsTogether(limit, s.scores);
    LinesBound(rx, s, m, limit, |m.entries|);
    assert m.entries[..|m.entries|] == m.entries;
    MissesBound(rx, s, m, limit, j);
    var a, b := SizePart(s, m), Sum(LineWeight(rx, s.normal, m.normalSubject, s.scores), m.entries);
    var c := Sum(MissWeight(rx, s.normal, m), s.scores[..j]);
    assert Abs(a) <= limit && TotalAtMiss(rx, s, m, j) == a + b + c;
    hide *;
    BoundsAdd(a, b, c, |m.entries|, pb, nb, |s.scores|, limit);
  }

  const INT_LIMIT: int := 0x8000_0000

  predicate InRange(x: int)
  {
    -0x8000_0000 <= x <= 0x7fff_ffff
  }

  /** (lines * rules + 1) * max|score| is below 2^31. */
  ghost predicate ScoresAreSmall(s: Settings, m: Mail)
  {
    exists limit: nat :: ScoresWithin(s, limit) && (|m.entries| * |s.scores| + 1) * limit < INT_LIMIT
  }

  lemma LineTotalInRange(rx: Matcher, s: Settings, m: Mail, i: nat, j: nat)
    requires i < |m.entries| && j <= |s.scores|
    ensures ScoresAreSmall(s, m) ==> InRange(TotalAtLine(rx, s, m, i, j))
  {
    hide TotalAtLine;
    if ScoresAreSmall(s, m) {
      var limit: nat :| ScoresWithin(s, limit) && (|m.entries| * |s.scores| + 1) * limit < INT_LIMIT;
      PositivePassInRange(rx, s, m, limit, i, j);
    }
  }

  lemma MissTotalInRange(rx: Matcher, s: Settings, m: Mail, j: nat)
    requires j <= |s.scores|
    ensures ScoresAreSmall(s, m) ==> InRange(TotalAtMiss(rx, s, m, j))
  {
    hide TotalAtMiss;
    if ScoresAreSmall(s, m) {
      var limit: nat :| ScoresWithin(s, limit) && (|m.entries| * |s.scores| + 1) * limit < INT_LIMIT;
      NegativePassInRange(rx, s, m, limit, j);
    }
  }

  /** No running total wraps a 32-bit integer when the scores are small. */
  lemma NoWrap(rx: Matcher, s: Settings, m: Mail)
    requires ScoresAreSmall(s, m)
    ensures forall i, j :: 0 <= i < |m.entries| && 0 <= j <= |s.scores| ==> InRange(TotalAtLine(rx, s, m, i, j))
    ensures forall j :: 0 <= j <= |s.scores| ==> InRange(TotalAtMiss(rx, s, m, j))
    ensures InRange(TotalScore(rx, s, m))
  {
    hide TotalAtLine, TotalAtMiss;
    forall i, j | 0 <= i < |m.entries| && 0 <= j <= |s.scores|
      ensures InRange(TotalAtLine(rx, s, m, i, j))
    {
      LineTotalInRange(rx, s, m, i, j);
    }
    forall j | 0 <= j <= |s.scores|
      ensures InRange(TotalAtMiss(rx, s, m, j))
    {
      MissTotalInRange(rx, s, m, j);
    }
    LastTotal(rx, s, m);
  }

  // ----- how the running total moves

  lemma FirstTotals(rx: Matcher, s: Settings, m: Mail)
    ensures m.entries != [] ==> TotalAtLine(rx, s, m, 0, 0) == SizePart(s, m)
    ensures m.entries == [] ==> TotalAtMiss(rx, s, m, 0) == SizePart(s, m)
  {
  }

  lemma NextRule(rx: Matcher, s: Settings, m: Mail, i: nat, j: nat)
    requires i < |m.entries| && j < |s.scores|
    ensures var r := s.scores[j];
      TotalAtLine(rx, s, m, i, j + 1) == TotalAtLine(rx, s, m, i, j)
        + if !r.filter.negative && Hits(rx, s.normal, m.normalSubject, r.filter, m.entries[i]) then r.score else 0
  {
    assert s.scores[..j + 1] == s.scores[..j] + [s.scores[j]];
    SumOneMore(HitWeight(rx, s.normal, m.normalSubject, m.entries[i]), s.scores[..j], s.scores[j]);
  }

  lemma NextLine(rx: Matcher, s: Settings, m: Mail, i: nat)
    requires i < |m.entries|
    ensures TotalAtLine(rx, s, m, i, |s.scores|)
            == if i + 1 < |m.entries| then TotalAtLine(rx, s, m, i + 1, 0) else TotalAtMiss(rx, s, m, 0)
  {
    assert s.scores[..|s.scores|] == s.scores;
    assert m.entries[..i + 1] == m.entries[..i] + [m.entries[i]];
    assert m.entries[..|m.entries|] == m.entries;
    SumOneMore(LineWeight(rx, s.normal, m.normalSubject, s.scores), m.entries[..i], m.entries[i]);
  }

  lemma NextMiss(rx: Matcher, s: Settings, m: Mail, j: nat)
    requires j < |s.scores|
    ensures var r := s.scores[j];
      TotalAtMiss(rx, s, m, j + 1) == TotalAtMiss(rx, s, m, j)
        + if r.filter.negative && m.entries != []
             && forall e :: e in m.entries ==> !Hits(rx, s.normal, m.normalSubject, r.filter, e)
          then r.score else 0
  {
    assert s.scores[..j + 1] == s.scores[..j] + [s.scores[j]];
    SumOneMore(MissWeight(rx, s.normal, m), s.scores[..j], s.scores[j]);
    MissWeightIs(rx, s.normal, m, s.scores[j]);
  }

  /** The last running total is the total of the verdict. */
  lemma LastTotal(rx: Matcher, s: Settings, m: Mail)
    ensures TotalAtMiss(rx, s, m, |s.scores|) == TotalScore(rx, s, m)
  {
    ProgramOrderTotal(rx, s, m);
    assert s.scores[..|s.scores|] == s.scores;
  }
}
