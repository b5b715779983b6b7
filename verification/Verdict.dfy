// What the verdict on a message is, stated over rules and header entries with no order of search.
module Verdict {
  import opened Header
  import opened Rules
  import opened Sums

  /** Regular expression matching is a parameter. */
  type Matcher = (Filter, string) -> bool

  const TWO32: int := 0x1_0000_0000

  /** The deny and score passes also look at the normalised subject, for entries tagged "Subject". */
  predicate Hits(rx: Matcher, normal: bool, subject: string, f: Filter, e: Entry)
  {
    rx(f, Line(e)) || (normal && e.tag == "Subject" && rx(f, subject))
  }

  // ----- friends

  /** A positive allow rule matches some line. */
  ghost predicate AllowHit(rx: Matcher, s: Settings, m: Mail)
  {
    exists f, e :: f in s.allows && e in m.entries && !f.negative && rx(f, Line(e))
  }

  /** A negative allow rule matches none of at least one line. */
  ghost predicate AllowMiss(rx: Matcher, s: Settings, m: Mail)
  {
    m.entries != [] && exists f :: f in s.allows && f.negative && forall e :: e in m.entries ==> !rx(f, Line(e))
  }

  predicate TooBig(limit: int, size: int)
  {
    limit > 0 && size > limit
  }

  // ----- spam

  /** The limit is converted to unsigned before the comparison. */
  ghost predicate Overlong(s: Settings, m: Mail)
  {
    s.maxLength != 0 && exists e :: e in m.entries && |Line(e)| > s.maxLength % TWO32
  }

  ghost predicate DenyHit(rx: Matcher, s: Settings, m: Mail)
  {
    exists f, e :: f in s.denies && e in m.entries && !f.negative && Hits(rx, s.normal, m.normalSubject, f, e)
  }

  ghost predicate DenyMiss(rx: Matcher, s: Settings, m: Mail)
  {
    && m.entries != []
    && exists f :: f in s.denies && f.negative
                   && forall e :: e in m.entries ==> !Hits(rx, s.normal, m.normalSubject, f, e)
  }

  ghost predicate Denied(rx: Matcher, s: Settings, m: Mail)
  {
    TooBig(s.maxSizeDeny, m.size) || DenyHit(rx, s, m) || DenyMiss(rx, s, m)
  }

  // ----- scores

  function HitTest(rx: Matcher, normal: bool, subject: string, f: Filter): Entry -> int
  {
    (e: Entry) => if Hits(rx, normal, subject, f, e) then 1 else 0
  }

  /** The number of lines a rule matches. */
  function HitCount(rx: Matcher, normal: bool, m: Mail, f: Filter): int
  {
    Sum(HitTest(rx, normal, m.normalSubject, f), m.entries)
  }

  /** What one rule contributes: its score once per matching line, or once if it is negative and
      there are lines but none matches. */
  function RuleWeight(rx: Matcher, normal: bool, m: Mail): Score -> int
  {
    (r: Score) =>
      if !r.filter.negative then r.score * HitCount(rx, normal, m, r.filter)
      else if m.entries != [] && HitCount(rx, normal, m, r.filter) == 0 then r.score
      else 0
  }

  function SizePart(s: Settings, m: Mail): int
  {
    if s.sizeScore.score != 0 && TooBig(s.sizeScore.size, m.size) then s.sizeScore.score else 0
  }

  function TotalScore(rx: Matcher, s: Settings, m: Mail): int
  {
    SizePart(s, m) + Sum(RuleWeight(rx, s.normal, m), s.scores)
  }

  // ----- the verdict

  /** 1: delete, 0: keep. */
  ghost function Judge(rx: Matcher, s: Settings, m: Mail, duplicate: bool): int
  {
    if duplicate then 1
    else if AllowHit(rx, s, m) then (if TooBig(s.maxSizeAllow, m.size) then 1 else 0)
    else if AllowMiss(rx, s, m) then 0
    else if Overlong(s, m) || Denied(rx, s, m) || TotalScore(rx, s, m) >= s.highScore then 1
    else 0
  }

  /** With no negative rule to count, skipping the negative passes changes nothing. */
  lemma SkippingIsSound(rx: Matcher, s: Settings, m: Mail)
    ensures CountNegative(s.allows) == 0 ==> !AllowMiss(rx, s, m)
    ensures CountNegative(s.denies) == 0 ==> !DenyMiss(rx, s, m)
  {
    NoNegatives(s.allows);
    NoNegatives(s.denies);
  }

  // ----- the order of rules and of header lines

  /** The same rules and the same lines, in any order; the cached header fields are the same. */
  ghost predicate Reordered(s: Settings, m: Mail, t: Settings, n: Mail)
  {
    && multiset(s.allows) == multiset(t.allows)
    && multiset(s.denies) == multiset(t.denies)
    && multiset(s.scores) == multiset(t.scores)
    && multiset(m.entries) == multiset(n.entries)
    && t == s.(allows := t.allows, denies := t.denies, scores := t.scores)
    && n == m.(entries := n.entries)
  }

  lemma SameMembers<T>(xs: seq<T>, ys: seq<T>)
    requires multiset(xs) == multiset(ys)
    ensures forall x :: x in xs <==> x in ys
    ensures |xs| == |ys|
  {
    assert forall x :: x in xs <==> x in multiset(xs);
    assert forall x :: x in ys <==> x in multiset(ys);
    assert |multiset(xs)| == |xs| && |multiset(ys)| == |ys|;
  }

  lemma ReorderedScore(rx: Matcher, s: Settings, m: Mail, t: Settings, n: Mail)
    requires Reordered(s, m, t, n)
    ensures TotalScore(rx, s, m) == TotalScore(rx, t, n)
  {
    SameMembers(m.entries, n.entries);
    SumPermutes(RuleWeight(rx, s.normal, m), s.scores, t.scores);
    forall r | r in t.scores
      ensures RuleWeight(rx, s.normal, m)(r) == RuleWeight(rx, s.normal, n)(r)
    {
      SumPermutes(HitTest(rx, s.normal, m.normalSubject, r.filter), m.entries, n.entries);
    }
    SumCongruent(RuleWeight(rx, s.normal, m), RuleWeight(rx, s.normal, n), t.scores);
  }

  /** The verdict does not depend on the order of the rules or of the header lines. */
  lemma OrderDoesNotMatter(rx: Matcher, s: Settings, m: Mail, t: Settings, n: Mail, duplicate: bool)
    requires Reordered(s, m, t, n)
    ensures Judge(rx, s, m, duplicate) == Judge(rx, t, n, duplicate)
  {
    SameMembers(s.allows, t.allows);
    SameMembers(s.denies, t.denies);
    SameMembers(m.entries, n.entries);
    ReorderedScore(rx, s, m, t, n);
    hide TotalScore;
  }

  // ----- more rules

  /** `t` adds deny rules and rules with non-negative scores. */
  ghost predicate Stricter(s: Settings, t: Settings, extra: seq<Score>)
  {
    && (forall f :: f in s.denies ==> f in t.denies)
    && multiset(t.scores) == multiset(s.scores + extra)
    && (forall r :: r in extra ==> r.score >= 0)
    && t == s.(denies := t.denies, scores := t.scores)
  }

  lemma HitCountIsNat(rx: Matcher, normal: bool, m: Mail, f: Filter)
    ensures HitCount(rx, normal, m, f) >= 0
  {
    SumNonNegative(HitTest(rx, normal, m.normalSubject, f), m.entries);
  }

  lemma WeightIsNonNegative(rx: Matcher, normal: bool, m: Mail, r: Score)
    requires r.score >= 0
    ensures RuleWeight(rx, normal, m)(r) >= 0
  {
    HitCountIsNat(rx, normal, m, r.filter);
  }

  lemma StricterScore(rx: Matcher, s: Settings, t: Settings, extra: seq<Score>, m: Mail)
    requires Stricter(s, t, extra)
    ensures TotalScore(rx, s, m) <= TotalScore(rx, t, m)
  {
    hide RuleWeight;
    var w := RuleWeight(rx, s.normal, m);
    SumPermutes(w, t.scores, s.scores + extra);
    SumAppend(w, s.scores, extra);
    forall r | r in extra
      ensures w(r) >= 0
    {
      WeightIsNonNegative(rx, s.normal, m, r);
    }
    SumNonNegative(w, extra);
  }

  /** More deny rules, positive or negative, and more non-negative scores only delete more. */
  lemma StricterDeletesMore(rx: Matcher, s: Settings, t: Settings, extra: seq<Score>, m: Mail, duplicate: bool)
    requires Stricter(s, t, extra)
    requires Judge(rx, s, m, duplicate) == 1
    ensures Judge(rx, t, m, duplicate) == 1
  {
    StricterScore(rx, s, t, extra, m);
    hide TotalScore;
  }

  /** `t` adds allow rules. */
  ghost predicate Friendlier(s: Settings, t: Settings)
  {
    (forall f :: f in s.allows ==> f in t.allows) && t == s.(allows := t.allows)
  }

  /** Exactly when more allow rules turn a kept message into a deleted one: a positive rule newly
      matches a message above MAXSIZE_ALLOW. In particular never with MAXSIZE_ALLOW = 0. */
  lemma FriendlierDeletesIff(rx: Matcher, s: Settings, t: Settings, m: Mail, duplicate: bool)
    requires Friendlier(s, t)
    requires Judge(rx, s, m, duplicate) == 0
    ensures Judge(rx, t, m, duplicate) == 1 <==>
      AllowHit(rx, t, m) && !AllowHit(rx, s, m) && TooBig(s.maxSizeAllow, m.size)
  {
    SameSpamTests(rx, s, t, m);
    hide TotalScore, Denied, Overlong;
  }

  lemma SameSpamTests(rx: Matcher, s: Settings, t: Settings, m: Mail)
    requires t == s.(allows := t.allows)
    ensures Overlong(t, m) == Overlong(s, m) && Denied(rx, t, m) == Denied(rx, s, m)
    ensures TotalScore(rx, t, m) == TotalScore(rx, s, m)
  {
  }

  // ----- what the manual page promises, and when the program keeps the promise

  /** MAXLENGTH "even overrides any `friendly' ALLOW rules": a message with an overlong line is deleted
      exactly when no allow rule keeps it, because the allow rules are consulted first. */
  lemma OverlongDeletedIff(rx: Matcher, s: Settings, m: Mail)
    requires Overlong(s, m)
    ensures Judge(rx, s, m, false) == 1 <==>
      (AllowHit(rx, s, m) ==> TooBig(s.maxSizeAllow, m.size)) && (AllowMiss(rx, s, m) ==> AllowHit(rx, s, m))
  {
    hide Overlong, TotalScore, Denied;
  }

  /** MAXSIZE_ALLOW is to bind "all messages that match any ALLOW rule": an oversized message
      allowed by some rule is deleted exactly when a positive rule allows it; a negative rule alone
      skips the size test. */
  lemma OversizedFriendDeletedIff(rx: Matcher, s: Settings, m: Mail)
    requires TooBig(s.maxSizeAllow, m.size) && (AllowHit(rx, s, m) || AllowMiss(rx, s, m))
    ensures Judge(rx, s, m, false) == 1 <==> AllowHit(rx, s, m)
  {
    hide Overlong, TotalScore, Denied;
  }

  /** A message that matches any ALLOW rule is to be kept: it is exactly when it is no duplicate and
      no positive allow rule sends it to the size test that it fails. */
  lemma FriendKeptIff(rx: Matcher, s: Settings, m: Mail, duplicate: bool)
    requires AllowHit(rx, s, m) || AllowMiss(rx, s, m)
    ensures Judge(rx, s, m, duplicate) == 0 <==>
      !duplicate && (AllowHit(rx, s, m) ==> !TooBig(s.maxSizeAllow, m.size))
  {
    hide Overlong, TotalScore, Denied;
  }

  const ANY: Filter := Filter("", Insensitive, false)
  const NEVER: Filter := Filter("x", Insensitive, true)
  const ONE_LINE: Mail := Mail([Entry("A", "b")], "", "", 2)
  const BASE: Settings := Settings([], [], [], false, false, 0, 0, 0, SizeScore(0, 0), 100)

  /** A concrete overlong message that an allow rule keeps. */
  lemma AllowBeatsMaxLength()
    ensures var s := BASE.(allows := [ANY], maxLength := 1); var rx: Matcher := (f, l) => true;
      Overlong(s, ONE_LINE) && Judge(rx, s, ONE_LINE, false) == 0
  {
    var s := BASE.(allows := [ANY], maxLength := 1);
    var rx: Matcher := (f, l) => true;
    assert ONE_LINE.entries[0] in ONE_LINE.entries && ANY in s.allows;
    assert |Line(ONE_LINE.entries[0])| == 4;
    assert rx(ANY, Line(ONE_LINE.entries[0]));
  }

  /** Concrete messages that match an allow rule and are deleted: an oversized one and a duplicate. */
  lemma FriendsDeleted()
    ensures var s := BASE.(allows := [ANY], maxSizeAllow := 1); var rx: Matcher := (f, l) => true;
      AllowHit(rx, s, ONE_LINE) && Judge(rx, s, ONE_LINE, false) == 1
    ensures var s := BASE.(allows := [ANY]); var rx: Matcher := (f, l) => true;
      AllowHit(rx, s, ONE_LINE) && Judge(rx, s, ONE_LINE, true) == 1 && Judge(rx, s, ONE_LINE, false) == 0
  {
    var rx: Matcher := (f, l) => true;
    assert ONE_LINE.entries[0] in ONE_LINE.entries && ANY in [ANY];
    assert rx(ANY, Line(ONE_LINE.entries[0]));
  }

  /** A concrete kept message that one more allow rule deletes. */
  lemma NewFriendDeleted()
    ensures var s := BASE.(maxSizeAllow := 1); var t := s.(allows := [ANY]); var rx: Matcher := (f, l) => true;
      Friendlier(s, t) && Judge(rx, s, ONE_LINE, false) == 0 && Judge(rx, t, ONE_LINE, false) == 1
  {
    var rx: Matcher := (f, l) => true;
    assert ONE_LINE.entries[0] in ONE_LINE.entries && ANY in [ANY];
    assert rx(ANY, Line(ONE_LINE.entries[0]));
  }

  /** A concrete oversized message that a negative allow rule keeps. */
  lemma NegativeAllowSkipsSize()
    ensures var s := BASE.(allows := [NEVER], maxSizeAllow := 1); var rx: Matcher := (f, l) => false;
      && AllowMiss(rx, s, ONE_LINE) && TooBig(s.maxSizeAllow, ONE_LINE.size)
      && Judge(rx, s, ONE_LINE, false) == 0
  {
    var s := BASE.(allows := [NEVER], maxSizeAllow := 1);
    assert NEVER in s.allows;
  }
}
