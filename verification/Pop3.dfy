// The mailbox scan as the program performs it over a connection.
module Pop3 {
  import opened Common
  import H = Header
  import opened Rules
  import opened Verdict
  import W = Weeder
  import opened HeaderParser
  import opened Replies
  import opened MailboxScan

  class Connection {
    const server: Server
    var issued: seq<Command>
    var nRead: nat
    var reply: string

    constructor (server: Server)
      ensures issued == [] && nRead == 0 && this.server == server
    {
      this.server := server;
      issued, nRead, reply := [], 0, "";
    }

    method Write(c: Command) returns (ok: bool)
      modifies this`issued
      ensures issued == old(issued) + [c] && ok == server.writes(|old(issued)|)
    {
      ok := server.writes(|issued|);
      issued := issued + [c];
    }

    /** Read one reply; it is good when it starts with '+'. */
    method ReadOk() returns (ok: bool)
      modifies this`nRead, this`reply
      ensures nRead == old(nRead) + 1
      ensures ok == Good(server.replies(old(nRead))) && (ok ==> server.replies(old(nRead)) == Some(reply))
    {
      var r := server.replies(nRead);
      nRead := nRead + 1;
      match r {
        case Some(text) =>
          reply := text;
          ok := text != "" && text[0] == '+';
        case None =>
          ok := false;
      }
    }
  }

  class Pop3 {
    const conn: Connection
    const prefs: Preferences
    const weeder: W.Weeder
    const validId: string -> bool
    const ignoreTimeStamp: bool

    constructor (conn: Connection, prefs: Preferences, weeder: W.Weeder, validId: string -> bool, ignoreTimeStamp: bool)
      ensures this.conn == conn && this.prefs == prefs && this.weeder == weeder
      ensures this.validId == validId && this.ignoreTimeStamp == ignoreTimeStamp
    {
      this.conn, this.prefs, this.weeder := conn, prefs, weeder;
      this.validId, this.ignoreTimeStamp := validId, ignoreTimeStamp;
    }

    function SetupOf(): Setup
      reads prefs
    {
      Setup(weeder.rx, prefs.View(), prefs.testMode, ignoreTimeStamp, validId)
    }

    /** Send a command and read its reply. */
    method Ask(c: Command) returns (ok: bool)
      modifies conn`issued, conn`nRead, conn`reply
      ensures conn.issued == old(conn.issued) + [c]
      ensures var answer := Answer(conn.server, |old(conn.issued)|, old(conn.nRead));
        ok == answer.Some? && (ok ==> answer == Some(conn.reply) && conn.nRead == old(conn.nRead) + 1)
    {
      ok := conn.Write(c);
      if ok {
        ok := conn.ReadOk();
      }
    }

    method Status() returns (n: int)
      modifies conn`issued, conn`nRead, conn`reply
      ensures conn.issued == old(conn.issued) + [Stat]
      ensures n == Announced(conn.server, |old(conn.issued)|, old(conn.nRead))
      ensures n >= 0 ==> conn.nRead == old(conn.nRead) + 1
    {
      hide Atoi, SecondWord;
      var ok := Ask(Stat);
      if !ok {
        return -1;
      }
      return Atoi(SecondWord(conn.reply));
    }

    method RemoveMsg(num: int)
      modifies conn`issued
      ensures conn.issued == old(conn.issued) + if prefs.testMode then [] else [Dele(num)]
    {
      if !prefs.testMode {
        var _ := conn.Write(Dele(num));
      }
    }

    /** Parse the header in the reply to TOP. */
    method ParseReply(header: H.Header) returns (r: ScanResult)
      requires header.Valid() && header.entries == []
      requires header.normal == prefs.normal
      requires header.ignoreTimeStamp == ignoreTimeStamp && header.validId == validId
      modifies header
      ensures var x := HeaderLook(SetupOf(), AfterFirstLine(conn.reply), old(header.size));
        r == ResultOf(x) && (x.Message? ==> header.View() == x.mail)
    {
      hide ParseText, EndOf, AfterFirstLine, H.LastBody, H.NormalSubjectOf;
      var status := Parse(AfterFirstLine(conn.reply), header);
      if status == Parsed {
        ghost var es := ParseText(AfterFirstLine(conn.reply)).value;
        assert header.entries == [] + es == es;
        assert header.View() == H.MailOf(prefs.normal, es, old(header.size));
      }
      r := match status case Parsed => Done case Rejected => Failed case SyntaxError => Exited;
    }

    /** Read size and header of message `i`. */
    method Fetch(i: int, header: H.Header) returns (r: ScanResult)
      requires header.Valid() && header.entries == []
      requires header.normal == prefs.normal
      requires header.ignoreTimeStamp == ignoreTimeStamp && header.validId == validId
      modifies conn`issued, conn`nRead, conn`reply, header
      ensures var x := LookAt(conn.server, SetupOf(), |old(conn.issued)|, old(conn.nRead));
        && r == ResultOf(x) && conn.issued == old(conn.issued) + Requests(i, x)
        && (x.Message? ==> header.View() == x.mail && conn.nRead == old(conn.nRead) + 2)
    {
      hide HeaderLook, AfterFirstLine, AfterLast, Atoi, Answer, H.Header.Valid;
      var ok := Ask(List(i));
      if !ok {
        return Failed;
      }
      header.SetSize(Atoi(AfterLast(conn.reply, ' ')));
      ok := Ask(Top(i));
      assert conn.issued == old(conn.issued) + [List(i), Top(i)];
      if !ok {
        return Failed;
      }
      r := ParseReply(header);
    }

    /** Fetch, judge and possibly delete message `i`. */
    method Examine(i: int) returns (r: ScanResult)
      requires prefs.Valid() && weeder.prefs == prefs
      modifies conn`issued, conn`nRead, conn`reply, weeder`msgIds
      ensures var u := SetupOf(); var x := LookAt(conn.server, u, |old(conn.issued)|, old(conn.nRead));
        && r == ResultOf(x)
        && (!x.Message? ==>
              conn.issued == old(conn.issued) + Requests(i, x) && weeder.msgIds == old(weeder.msgIds))
        && (x.Message? ==>
              var duplicate := W.IsDuplicate(u.settings, old(weeder.msgIds), x.mail);
              && conn.issued == old(conn.issued) + ForMessage(i, Judge(u.rx, u.settings, x.mail, duplicate), u.testMode)
              && weeder.msgIds == W.Remember(u.settings, old(weeder.msgIds), x.mail)
              && conn.nRead == old(conn.nRead) + 2)
    {
      hide Judge, LookAt, W.IsDuplicate, W.Remember;
      var header := new H.Header(prefs.normal, ignoreTimeStamp, validId);
      r := Fetch(i, header);
      if r != Done {
        return;
      }
      var verdict := weeder.IsWeed(header);
      if verdict == 1 {
        RemoveMsg(i);
      }
    }

    /** Scan the mailbox. */
    method Scan() returns (r: ScanResult)
      requires prefs.Valid() && weeder.prefs == prefs
      modifies conn`issued, conn`nRead, conn`reply, weeder`msgIds
      ensures var q := WholeScan(conn.server, SetupOf(), old(weeder.msgIds), |old(conn.issued)|, old(conn.nRead));
        && conn.issued == old(conn.issued) + q.trace && weeder.msgIds == q.memory && r == q.result
    {
      hide Judge, LookAt, Announced, ForMessage, W.IsDuplicate, W.Remember;
      ghost var before, u := conn.issued, SetupOf();
      ghost var q := WholeScan(conn.server, u, weeder.msgIds, |conn.issued|, conn.nRead);
      var numMessages := Status();
      if numMessages < 0 {
        return Failed;
      }
      var i := 1;
      while i <= numMessages
        invariant 1 <= i <= numMessages + 1
        invariant var rest := ScanFrom(conn.server, u, weeder.msgIds, |conn.issued|, conn.nRead, i, numMessages);
          conn.issued + rest.trace == before + q.trace && rest.memory == q.memory && rest.result == q.result
      {
        r := Examine(i);
        if r != Done {
          return;
        }
        i := i + 1;
      }
      return Done;
    }
  }
}
