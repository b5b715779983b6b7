// Whole runs of the weeder over the messages of one mailbox or several accounts, with the memory of
// message-IDs carried along.
module MailboxRun {
  import opened Header
  import opened Rules
  import opened Verdict
  import opened Weeder

  /** The memory after a run. */
  function SeenAfter(s: Settings, seen: seq<string>, mails: seq<Mail>): seq<string>
  {
    if mails == [] then seen
    else Remember(s, SeenAfter(s, seen, mails[..|mails| - 1]), mails[|mails| - 1])
  }

  /** The verdict on message `k` of a run. */
  ghost function VerdictAt(rx: Matcher, s: Settings, seen: seq<string>, mails: seq<Mail>, k: nat): int
    requires k < |mails|
  {
    Judge(rx, s, mails[k], IsDuplicate(s, SeenAfter(s, seen, mails[..k]), mails[k]))
  }

  /** The memory does not depend on the rules. */
  lemma {:induction false} SameMemory(s: Settings, t: Settings, seen: seq<string>, mails: seq<Mail>)
    requires s.delDuplicates == t.delDuplicates
    ensures SeenAfter(s, seen, mails) == SeenAfter(t, seen, mails)
  {
    if mails != [] {
      SameMemory(s, t, seen, mails[..|mails| - 1]);
    }
  }

  /** Over a whole run, more deny rules and more non-negative scores delete a superset. */
  lemma RunStricter(rx: Matcher, s: Settings, t: Settings, extra: seq<Score>, seen: seq<string>, mails: seq<Mail>,
                    k: nat)
    requires Stricter(s, t, extra) && k < |mails|
    requires VerdictAt(rx, s, seen, mails, k) == 1
    ensures VerdictAt(rx, t, seen, mails, k) == 1
  {
    hide Judge;
    SameMemory(s, t, seen, mails[..k]);
    StricterDeletesMore(rx, s, t, extra, mails[k], IsDuplicate(s, SeenAfter(s, seen, mails[..k]), mails[k]));
  }

  /** Over a whole run with MAXSIZE_ALLOW = 0, more allow rules delete a subset. */
  lemma RunFriendlier(rx: Matcher, s: Settings, t: Settings, seen: seq<string>, mails: seq<Mail>, k: nat)
    requires Friendlier(s, t) && s.maxSizeAllow == 0 && k < |mails|
    requires VerdictAt(rx, t, seen, mails, k) == 1
    ensures VerdictAt(rx, s, seen, mails, k) == 1
  {
    hide AllowHit, AllowMiss;
    var duplicate := IsDuplicate(s, SeenAfter(s, seen, mails[..k]), mails[k]);
    SameMemory(s, t, seen, mails[..k]);
    if Judge(rx, s, mails[k], duplicate) != 1 {
      FriendlierDeletesIff(rx, s, t, mails[k], duplicate);
    }
  }

  /** Accounts scanned one after the other are one long run. */
  lemma {:induction false} RunsCompose(s: Settings, seen: seq<string>, first: seq<Mail>, second: seq<Mail>)
    ensures SeenAfter(s, seen, first + second) == SeenAfter(s, SeenAfter(s, seen, first), second)
  {
    if second == [] {
      assert first + second == first;
    } else {
      var n := |second| - 1;
      RunsCompose(s, seen, first, second[..n]);
      assert (first + second)[..|first + second| - 1] == first + second[..n];
    }
  }

  lemma VerdictsCompose(rx: Matcher, s: Settings, seen: seq<string>, first: seq<Mail>, second: seq<Mail>, k: nat)
    requires k < |second|
    ensures VerdictAt(rx, s, seen, first + second, |first| + k)
            == VerdictAt(rx, s, SeenAfter(s, seen, first), second, k)
  {
    hide Judge;
    RunsCompose(s, seen, first, second[..k]);
    assert (first + second)[..|first| + k] == first + second[..k];
  }

  // ----- duplicates

  ghost predicate Distinct(ids: seq<string>)
  {
    forall i, j :: 0 <= i < j < |ids| ==> ids[i] != ids[j]
  }

  /** With DEL_DUPLICATES, the memory is free of duplicates and holds exactly what it held before and
      the non-empty IDs of the run. */
  lemma {:induction false} MemoryHoldsIds(s: Settings, seen: seq<string>, mails: seq<Mail>)
    requires s.delDuplicates && Distinct(seen)
    ensures Distinct(SeenAfter(s, seen, mails))
    ensures forall id :: id in SeenAfter(s, seen, mails) <==>
        id in seen || (id != "" && exists k :: 0 <= k < |mails| && mails[k].id == id)
  {
    if mails != [] {
      var n := |mails| - 1;
      var before, m := SeenAfter(s, seen, mails[..n]), mails[n];
      MemoryHoldsIds(s, seen, mails[..n]);
      assert forall k :: 0 <= k < n ==> mails[..n][k] == mails[k];
      forall id
        ensures id in SeenAfter(s, seen, mails) <==>
          id in seen || (id != "" && exists k :: 0 <= k < |mails| && mails[k].id == id)
      {
        assert id in SeenAfter(s, seen, mails) <==> id in before || (m.id != "" && id == m.id);
        if id != "" && id != m.id && exists k :: 0 <= k < |mails| && mails[k].id == id {
          var k :| 0 <= k < |mails| && mails[k].id == id;
          assert mails[..n][k].id == id;
        }
      }
    }
  }

  /** The ID of message `k` was remembered before the run, or an earlier message has it. */
  ghost predicate KnownId(seen: seq<string>, mails: seq<Mail>, k: nat)
    requires k < |mails|
  {
    mails[k].id != "" && (mails[k].id in seen || exists j :: 0 <= j < k && mails[j].id == mails[k].id)
  }

  /** A message is taken for a duplicate exactly when its ID is known. */
  lemma DuplicateIff(s: Settings, seen: seq<string>, mails: seq<Mail>, k: nat)
    requires s.delDuplicates && Distinct(seen) && k < |mails|
    ensures IsDuplicate(s, SeenAfter(s, seen, mails[..k]), mails[k]) <==> KnownId(seen, mails, k)
  {
    MemoryHoldsIds(s, seen, mails[..k]);
    assert forall j :: 0 <= j < k ==> mails[..k][j] == mails[j];
  }

  /** With DEL_DUPLICATES, every message with a known ID is deleted: at most one copy is kept in all
      accounts, whatever the rules are. */
  lemma LaterCopiesDeleted(rx: Matcher, s: Settings, seen: seq<string>, mails: seq<Mail>, k: nat)
    requires s.delDuplicates && Distinct(seen) && k < |mails|
    requires KnownId(seen, mails, k)
    ensures VerdictAt(rx, s, seen, mails, k) == 1
  {
    DuplicateIff(s, seen, mails, k);
  }

  /** Without DEL_DUPLICATES nothing is remembered and nothing is taken for a duplicate. */
  lemma {:induction false} NoDuplicates(s: Settings, seen: seq<string>, mails: seq<Mail>, m: Mail)
    requires !s.delDuplicates
    ensures SeenAfter(s, seen, mails) == seen && !IsDuplicate(s, seen, m)
  {
    if mails != [] {
      NoDuplicates(s, seen, mails[..|mails| - 1], m);
    }
  }
}
