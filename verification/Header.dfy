// The message header: its entry list and the fields cached from it.
module Header {
  import opened Common
  import opened Normalise

  datatype Entry = Entry(tag: string, body: string)

  /** The text the rules are matched against. */
  function Line(e: Entry): string
  {
    e.tag + ": " + e.body
  }

  /** What the weeder reads of a header. */
  datatype Mail = Mail(entries: seq<Entry>, id: string, normalSubject: string, size: int)

  /** The body of the last entry with a given tag, or the empty string. */
  function LastBody(entries: seq<Entry>, tag: string): string
  {
    if entries == [] then ""
    else if SameNoCase(entries[|entries| - 1].tag, tag) then entries[|entries| - 1].body
    else LastBody(entries[..|entries| - 1], tag)
  }

  predicate HasTag(entries: seq<Entry>, tag: string)
  {
    exists e :: e in entries && SameNoCase(e.tag, tag)
  }

  lemma OneMore(entries: seq<Entry>, e: Entry, tag: string)
    ensures LastBody(entries + [e], tag) == if SameNoCase(e.tag, tag) then e.body else LastBody(entries, tag)
    ensures HasTag(entries + [e], tag) <==> HasTag(entries, tag) || SameNoCase(e.tag, tag)
  {
    assert (entries + [e])[..|entries|] == entries;
    assert e in entries + [e];
    assert forall f :: f in entries ==> f in entries + [e];
  }

  /** The entry that decides: the last one with the tag. */
  lemma {:induction false} LastBodyIs(entries: seq<Entry>, tag: string, n: nat)
    requires n < |entries| && SameNoCase(entries[n].tag, tag)
    requires forall k :: n < k < |entries| ==> !SameNoCase(entries[k].tag, tag)
    ensures LastBody(entries, tag) == entries[n].body
  {
    if n < |entries| - 1 {
      LastBodyIs(entries[..|entries| - 1], tag, n);
    }
  }

  lemma {:induction false} NoBody(entries: seq<Entry>, tag: string)
    requires forall k :: 0 <= k < |entries| ==> !SameNoCase(entries[k].tag, tag)
    ensures LastBody(entries, tag) == ""
  {
    if entries != [] {
      NoBody(entries[..|entries| - 1], tag);
    }
  }

  /** Entries that make adding them throw. */
  predicate BadId(ignoreTimeStamp: bool, validId: string -> bool, tag: string, body: string)
  {
    SameNoCase(tag, "Message-Id") && !ignoreTimeStamp && !validId(body)
  }

  class Header {
    // The two preferences and the message-ID check that adding an entry consults.
    const normal: bool
    const ignoreTimeStamp: bool
    const validId: string -> bool

    var entries: seq<Entry>
    var id: string
    var from: string
    var to: string
    var subject: string
    var normalSubject: string
    var date: string
    var size: int

    constructor (normal: bool, ignoreTimeStamp: bool, validId: string -> bool)
      ensures Valid() && entries == []
      ensures this.normal == normal && this.ignoreTimeStamp == ignoreTimeStamp && this.validId == validId
    {
      this.normal, this.ignoreTimeStamp, this.validId := normal, ignoreTimeStamp, validId;
      entries := [];
      id, from, to, subject, normalSubject, date := "", "", "", "", "", "";
    }

    /** Every cached field is what the last entry with its tag says. */
    ghost predicate Valid()
      reads this
    {
      && id == LastBody(entries, "Message-Id")
      && from == LastBody(entries, "From")
      && to == LastBody(entries, "To")
      && subject == LastBody(entries, "Subject")
      && date == LastBody(entries, "Date")
      && normalSubject == NormalSubjectOf(normal, entries)
    }

    function View(): Mail
      reads this
    {
      Mail(entries, id, normalSubject, size)
    }

    predicate Rejected(tag: string, body: string)
    {
      BadId(ignoreTimeStamp, validId, tag, body)
    }

    /** Add an entry; false stands for the exception on an invalid message-ID, which is thrown with
        the entry already added. */
    method AddEntry(tag: string, body: string) returns (ok: bool)
      requires Valid()
      modifies this
      ensures entries == old(entries) + [Entry(tag, body)] && size == old(size)
      ensures ok <==> !Rejected(tag, body)
      ensures ok ==> Valid()
      ensures !ok ==> id == old(id) && subject == old(subject) && normalSubject == old(normalSubject)
    {
      hide LastBody, HasTag, Normalised;
      Cached(entries, Entry(tag, body));
      entries := entries + [Entry(tag, body)];
      if SameNoCase(tag, "Message-Id") {
        if !ignoreTimeStamp && !validId(body) {
          return false;
        }
        id := body;
        return true;
      }
      if SameNoCase(tag, "From") {
        from := body;
        return true;
      }
      if SameNoCase(tag, "To") {
        to := body;
        return true;
      }
      if SameNoCase(tag, "Subject") {
        subject := body;
        if normal {
          var n := NormaliseSubject(body);
          normalSubject := "Subject: " + n;
        }
        return true;
      }
      if SameNoCase(tag, "Date") {
        date := body;
      }
      return true;
    }

    method SetSize(s: int)
      requires Valid()
      modifies this`size
      ensures Valid() && size == s
    {
      size := s;
    }
  }

  function NormalSubjectOf(normal: bool, entries: seq<Entry>): string
  {
    if normal && HasTag(entries, "Subject") then "Subject: " + Normalised(LastBody(entries, "Subject")) else ""
  }

  /** With NORMAL, the normalised subject is that of the last subject entry, with its tag in front. */
  lemma NormalSubjectIs(entries: seq<Entry>, n: nat)
    requires n < |entries| && SameNoCase(entries[n].tag, "Subject")
    requires forall k :: n < k < |entries| ==> !SameNoCase(entries[k].tag, "Subject")
    ensures NormalSubjectOf(true, entries) == "Subject: " + Normalised(entries[n].body)
    ensures NormalSubjectOf(false, entries) == ""
  {
    hide SameNoCase, Normalised;
    LastBodyIs(entries, "Subject", n);
    assert entries[n] in entries;
  }

  /** What the weeder reads of a header with these entries. */
  function MailOf(normal: bool, entries: seq<Entry>, size: int): Mail
  {
    Mail(entries, LastBody(entries, "Message-Id"), NormalSubjectOf(normal, entries), size)
  }

  /** Which caches one more entry touches. */
  lemma Cached(entries: seq<Entry>, e: Entry)
    ensures LastBody(entries + [e], "Message-Id")
            == if SameNoCase(e.tag, "Message-Id") then e.body else LastBody(entries, "Message-Id")
    ensures LastBody(entries + [e], "From")
            == if SameNoCase(e.tag, "From") then e.body else LastBody(entries, "From")
    ensures LastBody(entries + [e], "To")
            == if SameNoCase(e.tag, "To") then e.body else LastBody(entries, "To")
    ensures LastBody(entries + [e], "Subject")
            == if SameNoCase(e.tag, "Subject") then e.body else LastBody(entries, "Subject")
    ensures LastBody(entries + [e], "Date")
            == if SameNoCase(e.tag, "Date") then e.body else LastBody(entries, "Date")
    ensures HasTag(entries + [e], "Subject") <==> HasTag(entries, "Subject") || SameNoCase(e.tag, "Subject")
    ensures !(SameNoCase(e.tag, "From") && SameNoCase(e.tag, "Date"))
  {
    assert SameNoCase(e.tag, "From") ==> Upper(e.tag[0]) == 'F';
    assert SameNoCase(e.tag, "Date") ==> Upper(e.tag[0]) == 'D';
    OneMore(entries, e, "Message-Id");
    OneMore(entries, e, "From");
    OneMore(entries, e, "To");
    OneMore(entries, e, "Subject");
    OneMore(entries, e, "Date");
  }
}
