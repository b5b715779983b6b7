// The verdict in plain terms: which message is kept and which is deleted, and what one more rule does.
module VerdictLaws {
  import opened Header
  import opened Rules
  import opened Sums
  import opened Verdict

  /** The rule matches some header line, rebuilt from tag and body. */
  ghost predicate MatchesLine(rx: Matcher, m: Mail, f: Filter)
  {
    exists e :: e in m.entries && rx(f, e.tag + ": " + e.body)
  }

  /** The same, or with NORMAL the normalised subject of a message that has a "Subject" line. */
  ghost predicate MatchesMail(rx: Matcher, s: Settings, m: Mail, f: Filter)
  {
    MatchesLine(rx, m, f) || (s.normal && rx(f, m.normalSubject) && exists e :: e in m.entries && e.tag == "Subject")
  }

  /** Some positive allow rule matches a line. */
  ghost predicate Friend(rx: Matcher, s: Settings, m: Mail)
  {
    exists f :: f in s.allows && !f.negative && MatchesLine(rx, m, f)
  }

  /** Some negative allow rule matches no line, and there are lines. */
  ghost predicate NegativeFriend(rx: Matcher, s: Settings, m: Mail)
  {
    m.entries != [] && exists f :: f in s.allows && f.negative && !MatchesLine(rx, m, f)
  }

  /** Some deny rule speaks against the message: a positive one that matches, or a negative one that
      does not although there are lines. */
  ghost predicate Unwanted(rx: Matcher, s: Settings, m: Mail)
  {
    exists f :: f in s.denies
                && if f.negative then m.entries != [] && !MatchesMail(rx, s, m, f) else MatchesMail(rx, s, m, f)
  }

  /** Some line is longer than MAXLENGTH. */
  ghost predicate LongLine(s: Settings, m: Mail)
  {
    s.maxLength != 0 && exists e :: e in m.entries && |e.tag| + 2 + |e.body| > s.maxLength % 0x1_0000_0000
  }

  // ----- the definitions agree

  lemma FriendIff(rx: Matcher, s: Settings, m: Mail)
    ensures AllowHit(rx, s, m) <==> Friend(rx, s, m)
    ensures AllowMiss(rx, s, m) <==> NegativeFriend(rx, s, m)
  {
    if AllowHit(rx, s, m) {
      var f, e :| f in s.allows && e in m.entries && !f.negative && rx(f, Line(e));
      assert MatchesLine(rx, m, f);
    }
    if Friend(rx, s, m) {
      var f :| f in s.allows && !f.negative && MatchesLine(rx, m, f);
      var e :| e in m.entries && rx(f, e.tag + ": " + e.body);
      assert rx(f, Line(e));
    }
    if AllowMiss(rx, s, m) {
      var f :| f in s.allows && f.negative && forall e :: e in m.entries ==> !rx(f, Line(e));
      assert !MatchesLine(rx, m, f);
    }
    if NegativeFriend(rx, s, m) {
      var f :| f in s.allows && f.negative && !MatchesLine(rx, m, f);
      assert forall e :: e in m.entries ==> !rx(f, Line(e));
    }
  }

  lemma HitsIff(rx: Matcher, s: Settings, m: Mail, f: Filter)
    ensures (exists e :: e in m.entries && Hits(rx, s.normal, m.normalSubject, f, e)) <==> MatchesMail(rx, s, m, f)
  {
    if e :| e in m.entries && Hits(rx, s.normal, m.normalSubject, f, e) {
      assert rx(f, Line(e)) ==> rx(f, e.tag + ": " + e.body);
    }
    if MatchesLine(rx, m, f) {
      var e :| e in m.entries && rx(f, e.tag + ": " + e.body);
      assert Hits(rx, s.normal, m.normalSubject, f, e);
    } else if MatchesMail(rx, s, m, f) {
      var e :| e in m.entries && e.tag == "Subject";
      assert Hits(rx, s.normal, m.normalSubject, f, e);
    }
  }

  lemma UnwantedIff(rx: Matcher, s: Settings, m: Mail)
    ensures DenyHit(rx, s, m) || DenyMiss(rx, s, m) <==> Unwanted(rx, s, m)
  {
    hide Hits, MatchesMail;
    if DenyHit(rx, s, m) {
      var f, e :| f in s.denies && e in m.entries && !f.negative && Hits(rx, s.normal, m.normalSubject, f, e);
      HitsIff(rx, s, m, f);
    } else if DenyMiss(rx, s, m) {
      var f :| f in s.denies && f.negative
               && forall e :: e in m.entries ==> !Hits(rx, s.normal, m.normalSubject, f, e);
      HitsIff(rx, s, m, f);
    }
    if Unwanted(rx, s, m) {
      var f :| f in s.denies
               && if f.negative then m.entries != [] && !MatchesMail(rx, s, m, f) else MatchesMail(rx, s, m, f);
      HitsIff(rx, s, m, f);
    }
  }

  lemma LongLineIff(s: Settings, m: Mail)
    ensures Overlong(s, m) <==> LongLine(s, m)
  {
    assert forall e :: e in m.entries ==> |Line(e)| == |e.tag| + 2 + |e.body|;
  }

  // ----- the verdict

  /** Every duplicate is deleted. Of the others, a friend is deleted exactly above MAXSIZE_ALLOW, one
      that only a negative rule allows is kept, and a stranger is deleted exactly for a long line, its
      size, a deny rule or its score. */
  lemma VerdictTable(rx: Matcher, s: Settings, m: Mail)
    ensures Judge(rx, s, m, true) == 1
    ensures Friend(rx, s, m) ==>
      Judge(rx, s, m, false) == if s.maxSizeAllow > 0 && m.size > s.maxSizeAllow then 1 else 0
    ensures !Friend(rx, s, m) && NegativeFriend(rx, s, m) ==> Judge(rx, s, m, false) == 0
    ensures !Friend(rx, s, m) && !NegativeFriend(rx, s, m) ==>
      Judge(rx, s, m, false)
      == if LongLine(s, m) || (s.maxSizeDeny > 0 && m.size > s.maxSizeDeny) || Unwanted(rx, s, m)
            || TotalScore(rx, s, m) >= s.highScore then 1 else 0
  {
    FriendIff(rx, s, m);
    UnwantedIff(rx, s, m);
    LongLineIff(s, m);
    hide AllowHit, AllowMiss, DenyHit, DenyMiss, Overlong, TotalScore, Friend, NegativeFriend, Unwanted, LongLine;
  }

  /** A denied message that is no duplicate is deleted exactly when no allow rule keeps it. */
  lemma DeniedDeletedIff(rx: Matcher, s: Settings, m: Mail)
    requires Unwanted(rx, s, m) || (s.maxSizeDeny > 0 && m.size > s.maxSizeDeny)
    ensures Judge(rx, s, m, false) == 1 <==>
      if Friend(rx, s, m) then s.maxSizeAllow > 0 && m.size > s.maxSizeAllow else !NegativeFriend(rx, s, m)
  {
    VerdictTable(rx, s, m);
    hide Judge, Friend, NegativeFriend, Unwanted;
  }

  /** The same for a message whose score reaches HIGHSCORE. */
  lemma ScoredDeletedIff(rx: Matcher, s: Settings, m: Mail)
    requires TotalScore(rx, s, m) >= s.highScore
    ensures Judge(rx, s, m, false) == 1 <==>
      if Friend(rx, s, m) then s.maxSizeAllow > 0 && m.size > s.maxSizeAllow else !NegativeFriend(rx, s, m)
  {
    VerdictTable(rx, s, m);
    hide Judge, Friend, NegativeFriend, TotalScore;
  }

  // ----- one more rule

  /** One more deny rule changes the verdict on a kept stranger exactly when it speaks against it. */
  lemma OneDenyRule(rx: Matcher, s: Settings, m: Mail, f: Filter)
    requires Judge(rx, s, m, false) == 0 && !Friend(rx, s, m) && !NegativeFriend(rx, s, m)
    ensures Judge(rx, s.(denies := s.denies + [f]), m, false) == 1 <==>
      if f.negative then m.entries != [] && !MatchesMail(rx, s, m, f) else MatchesMail(rx, s, m, f)
  {
    var t := s.(denies := s.denies + [f]);
    VerdictTable(rx, s, m);
    VerdictTable(rx, t, m);
    OtherSettings(rx, s, t, m);
    assert forall g :: g in t.denies <==> g in s.denies || g == f;
    assert forall g :: MatchesMail(rx, t, m, g) == MatchesMail(rx, s, m, g);
    hide Judge, TotalScore, MatchesMail, Friend, NegativeFriend, LongLine;
  }

  lemma OtherSettings(rx: Matcher, s: Settings, t: Settings, m: Mail)
    requires t == s.(denies := t.denies)
    ensures Friend(rx, t, m) == Friend(rx, s, m) && NegativeFriend(rx, t, m) == NegativeFriend(rx, s, m)
    ensures LongLine(t, m) == LongLine(s, m) && TotalScore(rx, t, m) == TotalScore(rx, s, m)
  {
  }

  /** One more positive allow rule that matches makes a friend of every message; a negative one that
      does not keeps every message that is no friend; any other changes nothing. */
  lemma OneAllowRule(rx: Matcher, s: Settings, m: Mail, f: Filter)
    ensures var t := s.(allows := s.allows + [f]);
      Judge(rx, t, m, false) ==
        if !f.negative && MatchesLine(rx, m, f) then (if s.maxSizeAllow > 0 && m.size > s.maxSizeAllow then 1 else 0)
        else if f.negative && m.entries != [] && !MatchesLine(rx, m, f) && !Friend(rx, s, m) then 0
        else Judge(rx, s, m, false)
  {
    var t := s.(allows := s.allows + [f]);
    VerdictTable(rx, s, m);
    VerdictTable(rx, t, m);
    SameTests(rx, s, t, m);
    assert forall g :: g in t.allows <==> g in s.allows || g == f;
    hide Judge, TotalScore, MatchesLine, Unwanted, LongLine;
  }

  lemma SameTests(rx: Matcher, s: Settings, t: Settings, m: Mail)
    requires t == s.(allows := t.allows)
    ensures Unwanted(rx, t, m) == Unwanted(rx, s, m)
    ensures LongLine(t, m) == LongLine(s, m) && TotalScore(rx, t, m) == TotalScore(rx, s, m)
  {
    assert forall g :: MatchesMail(rx, t, m, g) == MatchesMail(rx, s, m, g);
    hide MatchesMail;
  }

  // ----- the score

  /** The lines a scored rule counts. */
  ghost function HitLines(rx: Matcher, s: Settings, m: Mail, f: Filter, n: nat): (lines: set<nat>)
    requires n <= |m.entries|
  {
    set k: nat | k < n && (var e := m.entries[k];
      rx(f, e.tag + ": " + e.body) || (s.normal && e.tag == "Subject" && rx(f, m.normalSubject)))
  }

  lemma NextLine(rx: Matcher, s: Settings, m: Mail, f: Filter, n: nat)
    requires n < |m.entries|
    ensures |HitLines(rx, s, m, f, n + 1)|
            == |HitLines(rx, s, m, f, n)| + if Hits(rx, s.normal, m.normalSubject, f, m.entries[n]) then 1 else 0
  {
    var before, hit := HitLines(rx, s, m, f, n), Hits(rx, s.normal, m.normalSubject, f, m.entries[n]);
    assert HitLines(rx, s, m, f, n + 1) == if hit then before + {n} else before;
  }

  lemma TestIs(rx: Matcher, s: Settings, m: Mail, f: Filter, e: Entry)
    ensures HitTest(rx, s.normal, m.normalSubject, f)(e)
            == if Hits(rx, s.normal, m.normalSubject, f, e) then 1 else 0
  {
  }

  lemma {:induction false} CountIs(rx: Matcher, s: Settings, m: Mail, f: Filter, n: nat)
    requires n <= |m.entries|
    ensures Sum(HitTest(rx, s.normal, m.normalSubject, f), m.entries[..n]) == |HitLines(rx, s, m, f, n)|
  {
    var test := HitTest(rx, s.normal, m.normalSubject, f);
    if n == 0 {
      assert HitLines(rx, s, m, f, 0) == {};
    } else {
      hide Hits, HitTest, Sum, HitLines;
      CountIs(rx, s, m, f, n - 1);
      assert m.entries[..n] == m.entries[..n - 1] + [m.entries[n - 1]];
      SumOneMore(test, m.entries[..n - 1], m.entries[n - 1]);
      TestIs(rx, s, m, f, m.entries[n - 1]);
      NextLine(rx, s, m, f, n - 1);
    }
  }

  /** One more rule adds its score once for every line it hits, or once for no hit if it is negative
      and there are lines. */
  lemma OneScore(rx: Matcher, s: Settings, m: Mail, r: Score)
    ensures var hits := |HitLines(rx, s, m, r.filter, |m.entries|)|;
      TotalScore(rx, s.(scores := s.scores + [r]), m) == TotalScore(rx, s, m)
        + if !r.filter.negative then r.score * hits else if m.entries != [] && hits == 0 then r.score else 0
  {
    var t := s.(scores := s.scores + [r]);
    assert SizePart(t, m) == SizePart(s, m);
    SumOneMore(RuleWeight(rx, s.normal, m), s.scores, r);
    WeightIs(rx, s, m, r);
    hide Sum, RuleWeight, HitLines, SizePart;
  }

  lemma WeightIs(rx: Matcher, s: Settings, m: Mail, r: Score)
    ensures var hits := |HitLines(rx, s, m, r.filter, |m.entries|)|;
      RuleWeight(rx, s.normal, m)(r)
      == if !r.filter.negative then r.score * hits else if m.entries != [] && hits == 0 then r.score else 0
  {
    CountIs(rx, s, m, r.filter, |m.entries|);
    assert m.entries[..|m.entries|] == m.entries;
    hide Sum, HitTest, HitLines;
  }

  /** Without scored rules there is only the score for the size. */
  lemma NoScores(rx: Matcher, s: Settings, m: Mail)
    requires s.scores == []
    ensures TotalScore(rx, s, m)
            == if s.sizeScore.score != 0 && s.sizeScore.size > 0 && m.size > s.sizeScore.size then s.sizeScore.score
               else 0
  {
  }

  /** With the settings the program starts with, every message that is no duplicate is kept. */
  lemma NothingSet(rx: Matcher, m: Mail)
    ensures Judge(rx, Settings([], [], [], false, false, 0, 0, 0, SizeScore(0, 0), 100), m, false) == 0
  {
    var s := Settings([], [], [], false, false, 0, 0, 0, SizeScore(0, 0), 100);
    VerdictTable(rx, s, m);
    NoScores(rx, s, m);
    hide Judge, TotalScore;
  }
}
