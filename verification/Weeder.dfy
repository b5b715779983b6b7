// The weeder: the program's nested search loops, proved to compute the verdict, and its memory of
// message-IDs.
module Weeder {
  import opened Header
  import opened Rules
  import opened Sums
  import opened Verdict
  import opened ScoreRange

  const GEN_FAILURE_FLAG: int := -1

  // ----- the memory of message-IDs

  predicate IsDuplicate(s: Settings, seen: seq<string>, m: Mail)
  {
    s.delDuplicates && m.id != "" && m.id in seen
  }

  function Remember(s: Settings, seen: seq<string>, m: Mail): seq<string>
  {
    if s.delDuplicates && m.id != "" && m.id !in seen then seen + [m.id] else seen
  }

  class Weeder {
    const prefs: Preferences
    const rx: Matcher
    var msgIds: seq<string>

    constructor (prefs: Preferences, rx: Matcher)
      ensures msgIds == [] && this.prefs == prefs && this.rx == rx
    {
      this.prefs, this.rx := prefs, rx;
      msgIds := [];
    }

    method CheckDuplicates(m: Mail) returns (status: int)
      modifies this`msgIds
      ensures status == if IsDuplicate(prefs.View(), old(msgIds), m) then 1 else 0
      ensures msgIds == Remember(prefs.View(), old(msgIds), m)
    {
      if |m.id| <= 0 {
        return 0;
      }
      if prefs.delDuplicates {
        var k := 0;
        while k < |msgIds|
          invariant 0 <= k <= |msgIds| && m.id !in msgIds[..k]
        {
          if m.id == msgIds[k] {
            return 1;
          }
          k := k + 1;
        }
        msgIds := msgIds + [m.id];
      }
      return 0;
    }

    /** 1: spam, 0: friend, 2: undecided. */
    method CheckAllowRules(m: Mail) returns (status: int)
      requires prefs.Valid()
      ensures var s := prefs.View();
        status == if AllowHit(rx, s, m) then (if TooBig(s.maxSizeAllow, m.size) then 1 else 0)
                  else if AllowMiss(rx, s, m) then 0 else 2
    {
      var i := 0;
      while i < |m.entries|
        invariant 0 <= i <= |m.entries|
        invariant forall k, j :: 0 <= k < i && 0 <= j < |prefs.allows| && !prefs.allows[j].negative ==>
            !rx(prefs.allows[j], Line(m.entries[k]))
      {
        var curLine := Line(m.entries[i]);
        var j := 0;
        while j < |prefs.allows|
          invariant 0 <= j <= |prefs.allows|
          invariant forall l :: 0 <= l < j && !prefs.allows[l].negative ==> !rx(prefs.allows[l], curLine)
        {
          if !prefs.allows[j].negative && rx(prefs.allows[j], curLine) {
            assert AllowHit(rx, prefs.View(), m);
            if prefs.maxSizeAllow > 0 && m.size > prefs.maxSizeAllow {
              return 1;
            }
            return 0;
          }
          j := j + 1;
        }
        i := i + 1;
      }
      NoNegatives(prefs.allows);
      if prefs.negativeAllows > 0 {
        var j := 0;
        while j < |prefs.allows|
          invariant 0 <= j <= |prefs.allows|
          invariant forall l :: 0 <= l < j && prefs.allows[l].negative ==>
              m.entries == [] || exists e :: e in m.entries && rx(prefs.allows[l], Line(e))
        {
          if prefs.allows[j].negative {
            var k := 0;
            while k < |m.entries|
              invariant 0 <= k <= |m.entries|
              invariant forall l :: 0 <= l < k ==> !rx(prefs.allows[j], Line(m.entries[l]))
              invariant k == |m.entries| ==> m.entries == []
            {
              if rx(prefs.allows[j], Line(m.entries[k])) {
                break;
              }
              if k + 1 == |m.entries| {
                return 0;
              }
              k := k + 1;
            }
          }
          j := j + 1;
        }
      }
      return 2;
    }

    method CheckMaxLength(m: Mail) returns (status: int)
      ensures status == if Overlong(prefs.View(), m) then 1 else 0
    {
      if prefs.maxLength == 0 {
        return 0;
      }
      var i := 0;
      while i < |m.entries|
        invariant 0 <= i <= |m.entries|
        invariant forall k :: 0 <= k < i ==> |Line(m.entries[k])| <= prefs.maxLength % TWO32
      {
        if |Line(m.entries[i])| > prefs.maxLength % TWO32 {
          return 1;
        }
        i := i + 1;
      }
      return 0;
    }

    method CheckDenyRules(m: Mail) returns (status: int)
      requires prefs.Valid()
      ensures status == if Denied(rx, prefs.View(), m) then 1 else 0
    {
      hide Hits;
      if prefs.maxSizeDeny > 0 && m.size > prefs.maxSizeDeny {
        return 1;
      }
      var i := 0;
      while i < |m.entries|
        invariant 0 <= i <= |m.entries|
        invariant forall k, j :: 0 <= k < i && 0 <= j < |prefs.denies| && !prefs.denies[j].negative ==>
            !Hits(rx, prefs.normal, m.normalSubject, prefs.denies[j], m.entries[k])
      {
        var hit := DenyLine(m, i);
        if hit {
          assert DenyHit(rx, prefs.View(), m);
          return 1;
        }
        i := i + 1;
      }
      NoNegatives(prefs.denies);
      if prefs.negativeDenies > 0 {
        var j := 0;
        while j < |prefs.denies|
          invariant 0 <= j <= |prefs.denies|
          invariant forall l :: 0 <= l < j && prefs.denies[l].negative ==>
              || m.entries == []
              || exists e :: e in m.entries && Hits(rx, prefs.normal, m.normalSubject, prefs.denies[l], e)
        {
          if prefs.denies[j].negative {
            var missed := MatchesNothing(m, prefs.denies[j]);
            if missed {
              assert DenyMiss(rx, prefs.View(), m);
              return 1;
            }
          }
          j := j + 1;
        }
      }
      return 0;
    }

    /** The inner loop of the positive deny pass. */
    method DenyLine(m: Mail, i: nat) returns (hit: bool)
      requires i < |m.entries|
      ensures hit <==> exists j :: 0 <= j < |prefs.denies| && !prefs.denies[j].negative
                                   && Hits(rx, prefs.normal, m.normalSubject, prefs.denies[j], m.entries[i])
    {
      var e := m.entries[i];
      var curLine := Line(e);
      var j := 0;
      while j < |prefs.denies|
        invariant 0 <= j <= |prefs.denies|
        invariant forall l :: 0 <= l < j && !prefs.denies[l].negative ==>
            !Hits(rx, prefs.normal, m.normalSubject, prefs.denies[l], e)
      {
        if !prefs.denies[j].negative && rx(prefs.denies[j], curLine) {
          assert Hits(rx, prefs.normal, m.normalSubject, prefs.denies[j], e);
          return true;
        }
        if prefs.normal && !prefs.denies[j].negative && e.tag == "Subject" && rx(prefs.denies[j], m.normalSubject) {
          assert Hits(rx, prefs.normal, m.normalSubject, prefs.denies[j], e);
          return true;
        }
        j := j + 1;
      }
      return false;
    }

    /** The inner loop of the negative passes: break at a match, succeed at the last line. */
    method MatchesNothing(m: Mail, f: Filter) returns (missed: bool)
      ensures missed <==> m.entries != []
                          && forall e :: e in m.entries ==> !Hits(rx, prefs.normal, m.normalSubject, f, e)
    {
      missed := false;
      var k := 0;
      while k < |m.entries|
        invariant 0 <= k <= |m.entries|
        invariant forall l :: 0 <= l < k ==> !Hits(rx, prefs.normal, m.normalSubject, f, m.entries[l])
        invariant missed <==> k == |m.entries| && m.entries != []
      {
        var e := m.entries[k];
        if rx(f, Line(e)) {
          assert Hits(rx, prefs.normal, m.normalSubject, f, e);
          break;
        }
        if prefs.normal && e.tag == "Subject" && rx(f, m.normalSubject) {
          assert Hits(rx, prefs.normal, m.normalSubject, f, e);
          break;
        }
        if k + 1 == |m.entries| {
          missed := true;
        }
        k := k + 1;
      }
    }

    /** The inner loop of the positive score pass. With small scores no addition leaves the range of
        the program's integers. */
    method ScoreLine(m: Mail, i: nat, msgScore: int) returns (score: int)
      requires i < |m.entries| && msgScore == TotalAtLine(rx, prefs.View(), m, i, 0)
      ensures score == TotalAtLine(rx, prefs.View(), m, i, |prefs.scores|)
      ensures ScoresAreSmall(prefs.View(), m) ==> InRange(score)
    {
      hide TotalAtLine;
      var e := m.entries[i];
      var curLine := Line(e);
      score := msgScore;
      LineTotalInRange(rx, prefs.View(), m, i, 0);
      var j := 0;
      while j < |prefs.scores|
        invariant 0 <= j <= |prefs.scores|
        invariant score == TotalAtLine(rx, prefs.View(), m, i, j)
        invariant ScoresAreSmall(prefs.View(), m) ==> InRange(score)
      {
        var r := prefs.scores[j];
        NextRule(rx, prefs.View(), m, i, j);
        LineTotalInRange(rx, prefs.View(), m, i, j + 1);
        if !r.filter.negative
           && (rx(r.filter, curLine) || (prefs.normal && e.tag == "Subject" && rx(r.filter, m.normalSubject))) {
          score := score + r.score;
        }
        j := j + 1;
      }
    }

    /** The positive score pass. */
    method ScoreLines(m: Mail, msgScore: int) returns (score: int)
      requires msgScore == SizePart(prefs.View(), m)
      ensures score == TotalAtMiss(rx, prefs.View(), m, 0)
    {
      hide TotalAtLine, TotalAtMiss, SizePart;
      score := msgScore;
      FirstTotals(rx, prefs.View(), m);
      var i := 0;
      while i < |m.entries|
        invariant 0 <= i <= |m.entries|
        invariant score == if i < |m.entries| then TotalAtLine(rx, prefs.View(), m, i, 0)
                           else TotalAtMiss(rx, prefs.View(), m, 0)
      {
        score := ScoreLine(m, i, score);
        NextLine(rx, prefs.View(), m, i);
        i := i + 1;
      }
    }

    /** The negative score pass. */
    method ScoreMisses(m: Mail, msgScore: int) returns (score: int)
      requires msgScore == TotalAtMiss(rx, prefs.View(), m, 0)
      ensures score == TotalAtMiss(rx, prefs.View(), m, |prefs.scores|)
      ensures ScoresAreSmall(prefs.View(), m) ==> InRange(score)
    {
      hide TotalAtMiss;
      score := msgScore;
      MissTotalInRange(rx, prefs.View(), m, 0);
      var j := 0;
      while j < |prefs.scores|
        invariant 0 <= j <= |prefs.scores|
        invariant score == TotalAtMiss(rx, prefs.View(), m, j)
        invariant ScoresAreSmall(prefs.View(), m) ==> InRange(score)
      {
        var r := prefs.scores[j];
        NextMiss(rx, prefs.View(), m, j);
        MissTotalInRange(rx, prefs.View(), m, j + 1);
        if r.filter.negative {
          var missed := MatchesNothing(m, r.filter);
          if missed {
            score := score + r.score;
          }
        }
        j := j + 1;
      }
    }

    method CheckScores(m: Mail) returns (status: int)
      ensures status == if TotalScore(rx, prefs.View(), m) >= prefs.highScore then 1 else 0
    {
      hide TotalScore, Sum, TotalAtMiss;
      var msgScore := 0;
      if prefs.sizeScore.score != 0 && prefs.sizeScore.size > 0 && m.size > prefs.sizeScore.size {
        msgScore := prefs.sizeScore.score;
      }
      assert msgScore == SizePart(prefs.View(), m);
      msgScore := ScoreLines(m, msgScore);
      msgScore := ScoreMisses(m, msgScore);
      LastTotal(rx, prefs.View(), m);
      if msgScore >= prefs.highScore {
        return 1;
      }
      return 0;
    }

    /** 1: delete, 0: keep, negative: no header was given. */
    method IsWeed(header: Header?) returns (verdict: int)
      requires prefs.Valid()
      modifies this`msgIds
      ensures header == null ==> verdict == GEN_FAILURE_FLAG && msgIds == old(msgIds)
      ensures header != null ==>
          && verdict == Judge(rx, prefs.View(), header.View(), IsDuplicate(prefs.View(), old(msgIds), header.View()))
          && msgIds == Remember(prefs.View(), old(msgIds), header.View())
    {
      hide Overlong, Denied, TotalScore, AllowHit, AllowMiss;
      if header == null {
        return GEN_FAILURE_FLAG;
      }
      var m := header.View();
      var status := CheckDuplicates(m);
      if status == 1 {
        return 1;
      }
      status := CheckAllowRules(m);
      if status == 1 {
        return 1;
      } else if status == 0 {
        return 0;
      }
      status := CheckMaxLength(m);
      if status == 1 {
        return 1;
      }
      status := CheckDenyRules(m);
      if status == 1 {
        return 1;
      }
      status := CheckScores(m);
      if status == 1 {
        return 1;
      }
      return 0;
    }
  }
}
