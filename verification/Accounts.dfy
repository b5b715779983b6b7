// Several accounts scanned one after the other with the shared memory of message-IDs, whatever the
// outcome of each scan.
module Accounts {
  import H = Header
  import opened MailboxRun
  import opened MailboxScan

  /** One scan: the server, and how many writes and reads its login took. */
  datatype Visit = Visit(server: Server, w: nat, k: nat)

  ghost function ScanOf(u: Setup, seen: seq<string>, visit: Visit): Session
  {
    WholeScan(visit.server, u, seen, visit.w, visit.k)
  }

  /** The memory passed on by a sequence of scans, failed ones included. */
  ghost function MemoryAfter(u: Setup, seen: seq<string>, visits: seq<Visit>): seq<string>
  {
    if visits == [] then seen
    else
      var n := |visits| - 1;
      ScanOf(u, MemoryAfter(u, seen, visits[..n]), visits[n]).memory
  }

  ghost function SessionAt(u: Setup, seen: seq<string>, visits: seq<Visit>, a: nat): Session
    requires a < |visits|
  {
    ScanOf(u, MemoryAfter(u, seen, visits[..a]), visits[a])
  }

  /** The Message-Id that a header holds last. */
  function IdOf(m: H.Mail): string
  {
    H.LastBody(m.entries, "Message-Id")
  }

  /** Message `i` of scan `a` was judged, and its header holds `id`. */
  ghost predicate Judged(u: Setup, seen: seq<string>, visits: seq<Visit>, a: nat, i: nat, id: string)
  {
    a < |visits| && i < |SessionAt(u, seen, visits, a).mails| && IdOf(SessionAt(u, seen, visits, a).mails[i]) == id
  }

  // ----- one scan

  lemma MemoryOfScan(u: Setup, seen: seq<string>, visit: Visit)
    ensures var q := ScanOf(u, seen, visit); q.memory == SeenAfter(u.settings, seen, q.mails)
  {
    ScanExplained(visit.server, u, seen, visit.w, visit.k);
  }

  lemma ScanRemembers(u: Setup, seen: seq<string>, visit: Visit)
    requires u.settings.delDuplicates && Distinct(seen)
    ensures var q := ScanOf(u, seen, visit);
      && Distinct(q.memory)
      && forall id :: id in q.memory <==>
           id in seen || (id != "" && exists i :: 0 <= i < |q.mails| && IdOf(q.mails[i]) == id)
  {
    MemoryOfScan(u, seen, visit);
    IdsAreHeaders(visit.server, u, seen, visit.w, visit.k);
    var q := ScanOf(u, seen, visit);
    assert forall i :: 0 <= i < |q.mails| ==> q.mails[i].id == IdOf(q.mails[i]);
    hide ScanOf, SeenAfter, Distinct, IdOf;
    MemoryHoldsIds(u.settings, seen, q.mails);
  }

  // ----- all scans

  lemma SameSession(u: Setup, seen: seq<string>, visits: seq<Visit>, a: nat)
    requires a < |visits| - 1
    ensures SessionAt(u, seen, visits, a) == SessionAt(u, seen, visits[..|visits| - 1], a)
  {
    assert visits[..|visits| - 1][..a] == visits[..a];
  }

  lemma SameJudged(u: Setup, seen: seq<string>, visits: seq<Visit>, id: string)
    requires visits != []
    ensures var n := |visits| - 1;
      forall a: nat, i: nat :: a < n ==> (Judged(u, seen, visits, a, i, id) <==> Judged(u, seen, visits[..n], a, i, id))
  {
    hide SessionAt, IdOf;
    forall a: nat | a < |visits| - 1 {
      SameSession(u, seen, visits, a);
    }
  }

  /** The memory holds no ID twice and exactly the IDs it held before and those of all judged messages. */
  lemma {:induction false} MemoryHoldsAll(u: Setup, seen: seq<string>, visits: seq<Visit>)
    requires u.settings.delDuplicates && Distinct(seen)
    ensures Distinct(MemoryAfter(u, seen, visits))
    ensures forall id :: id in MemoryAfter(u, seen, visits) <==>
        id in seen || (id != "" && exists a: nat, i: nat :: Judged(u, seen, visits, a, i, id))
  {
    if visits != [] {
      var n := |visits| - 1;
      var before := MemoryAfter(u, seen, visits[..n]);
      MemoryHoldsAll(u, seen, visits[..n]);
      ScanRemembers(u, before, visits[n]);
      var q := SessionAt(u, seen, visits, n);
      assert q == ScanOf(u, before, visits[n]) && MemoryAfter(u, seen, visits) == q.memory;
      forall id
        ensures id in q.memory <==>
          id in seen || (id != "" && exists a: nat, i: nat :: Judged(u, seen, visits, a, i, id))
      {
        hide ScanOf, MemoryAfter, IdOf;
        SameJudged(u, seen, visits, id);
        JudgedLast(u, seen, visits, id);
      }
    }
  }

  lemma JudgedLast(u: Setup, seen: seq<string>, visits: seq<Visit>, id: string)
    requires visits != []
    ensures var n := |visits| - 1; var q := SessionAt(u, seen, visits, n);
      (exists a: nat, i: nat :: Judged(u, seen, visits, a, i, id)) <==>
        || (exists i :: 0 <= i < |q.mails| && IdOf(q.mails[i]) == id)
        || (exists a: nat, i: nat :: Judged(u, seen, visits[..n], a, i, id))
  {
    var n := |visits| - 1;
    var q := SessionAt(u, seen, visits, n);
    SameJudged(u, seen, visits, id);
    hide SessionAt, IdOf;
    if i :| 0 <= i < |q.mails| && IdOf(q.mails[i]) == id {
      assert Judged(u, seen, visits, n, i, id);
    }
    if a: nat, i: nat :| Judged(u, seen, visits[..n], a, i, id) {
      assert Judged(u, seen, visits, a, i, id);
    }
    if a: nat, i: nat :| Judged(u, seen, visits, a, i, id) {
      assert a == n || Judged(u, seen, visits[..n], a, i, id);
    }
  }

  lemma StillRemembered(u: Setup, seen: seq<string>, visits: seq<Visit>, a: nat, i: nat, b: nat, id: string)
    requires u.settings.delDuplicates && Distinct(seen)
    ensures a < b <= |visits| && id != "" && Judged(u, seen, visits, a, i, id)
      ==> id in MemoryAfter(u, seen, visits[..b])
  {
    if a < b <= |visits| && Judged(u, seen, visits, a, i, id) {
      assert visits[..b][..a] == visits[..a];
      assert Judged(u, seen, visits[..b], a, i, id);
      MemoryHoldsAll(u, seen, visits[..b]);
    }
  }

  /** Message `j` of scan `b` is judged after message `i` of scan `a`, and both hold `id`. */
  ghost predicate LaterCopy(u: Setup, seen: seq<string>, visits: seq<Visit>, a: nat, i: nat, b: nat, j: nat,
                            id: string)
  {
    && Judged(u, seen, visits, a, i, id) && Judged(u, seen, visits, b, j, id)
    && (a < b || (a == b && i < j))
  }

  /** With DEL_DUPLICATES, a message judged later than another one with its ID, in the same account or
      in a later one, is deleted, in test mode not. */
  lemma LaterCopyDeleted(u: Setup, seen: seq<string>, visits: seq<Visit>, a: nat, i: nat, b: nat, j: nat, id: string)
    requires u.settings.delDuplicates && Distinct(seen) && id != ""
    ensures LaterCopy(u, seen, visits, a, i, b, j, id) ==>
      (Dele(j + 1) in SessionAt(u, seen, visits, b).trace <==> !u.testMode)
  {
    if LaterCopy(u, seen, visits, a, i, b, j, id) {
      var now, v := MemoryAfter(u, seen, visits[..b]), visits[b];
      StillRemembered(u, seen, visits, a, i, b, id);
      MemoryHoldsAll(u, seen, visits[..b]);
      var mails := SessionAt(u, seen, visits, b).mails;
      assert mails == WholeScan(v.server, u, now, v.w, v.k).mails;
      assert Copy(now, mails, j);
      hide Copy, WholeScan, Distinct, MemoryAfter;
      CopiesDeleted(v.server, u, now, v.w, v.k, j);
    }
  }

  /** Message `i` of scan `a` holds `id`, was judged and is not deleted. */
  ghost predicate Kept(u: Setup, seen: seq<string>, visits: seq<Visit>, a: nat, i: nat, id: string)
  {
    Judged(u, seen, visits, a, i, id) && Dele(i + 1) !in SessionAt(u, seen, visits, a).trace
  }

  /** With DEL_DUPLICATES and outside test mode: of all the messages with one ID that are judged in all
      accounts, at most one is kept. */
  lemma AtMostOneKept(u: Setup, seen: seq<string>, visits: seq<Visit>, a: nat, i: nat, b: nat, j: nat, id: string)
    requires u.settings.delDuplicates && !u.testMode && Distinct(seen) && id != ""
    ensures Kept(u, seen, visits, a, i, id) && Kept(u, seen, visits, b, j, id) ==> a == b && i == j
  {
    hide SessionAt, Distinct, Judged;
    LaterCopyDeleted(u, seen, visits, a, i, b, j, id);
    LaterCopyDeleted(u, seen, visits, b, j, a, i, id);
  }
}
