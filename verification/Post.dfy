/** `docmd_post` end to end (src/server.c), with the message-id counter and the body files of
    src/database.c. */
module Post {
  import opened CStrings
  import opened Delivery
  import opened Tables
  import HeaderEdit
  import LineLookup
  import Receive

  /** The tables, the body files by name, and the number in the nextmsgid file (0 when the file
      does not exist yet). */
  datatype Store = Store(db: Db, bodies: map<string, string>, counter: nat)

  /** Configuration: the largest posting, and the regex checks of the required header lines. */
  datatype Rules = Rules(maxPostSize: nat, requiredLines: string -> bool)

  /** What the surroundings contribute to one POST: the data as it arrives, the sender's host, the
      server's own name, the clock, and whether the counter file and the clock could be read. */
  datatype Env = Env(chunks: seq<string>, host: string, fqdn: string, date: string, now: int,
                     counterOk: bool, clockOk: bool)

  datatype Answer = Killed | Answered(code: nat)

  // ---------- Message ids ----------

  function MessageId(n: nat, host: string): string {
    "<cdp" + Dec(n) + "@" + host + ">"
  }

  /** The body file of a message: its id without the angle brackets. */
  function FileName(id: string): string {
    if |id| < 2 then [] else id[1..|id| - 1]
  }

  lemma FileNameIs(name: string)
    ensures FileName("<" + name + ">") == name
  {
  }

  /** Ids of different numbers differ, whatever hosts are appended, and so do their file names. */
  lemma IdsAreInjective(n: nat, host: string, k: nat, other: string)
    ensures MessageId(n, host) == MessageId(k, other) ==> n == k
    ensures FileName(MessageId(n, host)) == FileName(MessageId(k, other)) ==> n == k
  {
    NumberOfFile(n, host);
    NumberOfFile(k, other);
  }

  lemma NumberOfFile(n: nat, host: string)
    ensures |FileName(MessageId(n, host))| >= 3 && Atoi(FileName(MessageId(n, host))[3..]) == n
  {
    var f := FileName(MessageId(n, host));
    assert f == "cdp" + Dec(n) + "@" + host;
    assert f[3..] == Dec(n) + ("@" + host);
    AtoiDec(n, "@" + host);
  }

  // ---------- Checks before anything is stored ----------

  /** The first name that is missing (411) or closed to posting (441) ends the POST. */
  function NameError(db: Db, names: seq<string>): Option<nat> {
    if names == [] then None
    else if names[0] !in db.groups then Some(411)
    else if db.groups[names[0]].pflag != 'y' then Some(441)
    else NameError(db, names[1..])
  }

  lemma {:induction false} NameErrorIff(db: Db, names: seq<string>)
    ensures NameError(db, names) == None <==> forall x :: x in names ==> MayPost(db, x)
  {
    if names != [] {
      NameErrorIff(db, names[1..]);
      assert forall x :: x in names <==> x == names[0] || x in names[1..];
      assert names[0] in names;
    }
  }

  datatype Screened = Refused(outcome: Answer) | Passed(header: string, body: string, ngstrp: string)

  function Screen(rules: Rules, db: Db, env: Env): Screened {
    match Receive.Outcome([], env.chunks, rules.maxPostSize)
    case TooBig => Refused(Killed)
    case Disconnected => Refused(Killed)
    case Complete(text) =>
      match Receive.SplitArticle(text)
      case Garbage => Refused(Killed)
      case Parts(header, body) =>
        if !rules.requiredLines(header) then Refused(Answered(441))
        else
          match LineLookup.LineValue(header, "Newsgroups:")
          case None => Refused(Answered(441))
          case Some(ngstrp) =>
            match NameError(db, Tokens(ngstrp))
            case Some(code) => Refused(Answered(code))
            case None => Passed(header, body, ngstrp)
  }

  // ---------- What is stored ----------

  /** At most `n` bytes of a text, as `snprintf` prints it. */
  function Printed(s: string, n: nat): string {
    if |s| <= n then s else s[..n]
  }

  function OwnLines(env: Env, id: string, lines: nat, size: nat): string {
    "Path: " + env.fqdn + CRLF
    + ("Message-ID: " + id + CRLF
    + ("Date: " + env.date + CRLF
    + ("Lines: " + Dec(lines) + CRLF
    + ("X-WendzelNNTPdBodysize: " + Dec(size) + CRLF))))
  }

  /** Lines of the body before the final dot. */
  function BodyLines(body: string): nat
    requires |body| >= 3
  {
    Count(body[..|body| - 3], '\n')
  }

  function TextOf(value: Option<string>): string {
    if value.Some? then value.value else "(NULL)"
  }

  /** Author and subject get their quotes doubled here and again by the statement, so that they are
      stored doubled. */
  function PostingOf(env: Env, id: string, header: string, body: string, ngstrp: string): Posting
    requires |body| >= 3
  {
    var edited := HeaderEdit.EditHeader(header);
    Posting(env.now, Quoted(TextOf(LineLookup.LineValue(edited, "From:"))), ngstrp,
            Quoted(TextOf(LineLookup.LineValue(edited, "Subject:"))), BodyLines(body),
            Printed(OwnLines(env, id, BodyLines(body), |body|), 0x7fd) + edited)
  }

  /** Storing a screened posting under a new number, and delivering it. */
  function Stored(st: Store, p: Policy, env: Env, header: string, body: string, ngstrp: string): (Store, Answer)
    requires |body| >= 3 && AllExist(st.db, Tokens(ngstrp))
  {
    var n := st.counter + 1;
    var id := MessageId(n, env.host);
    if !env.counterOk then (st, Killed)
    else if !env.clockOk then (st.(counter := n), Killed)
    else
      var bodies := st.bodies[FileName(id) := body];
      if id in st.db.postings then (Store(st.db, bodies, n), Killed)
      else
        var db := st.db.(postings := st.db.postings[id := PostingOf(env, id, header, body, ngstrp)]);
        var (db', ending) := Deliver(db, id, Tokens(ngstrp), p, []);
        (Store(db', bodies, n), if ending == Done then Answered(240) else Killed)
  }

  lemma PassedFacts(rules: Rules, db: Db, env: Env)
    requires Screen(rules, db, env).Passed? && rules.maxPostSize > 0
    ensures var Passed(h, b, ng) := Screen(rules, db, env);
            EndsWith(h, CRLF) && EndsWith(b, ".\r\n") && |b| < rules.maxPostSize
            && (forall x :: x in Tokens(ng) ==> MayPost(db, x)) && AllExist(db, Tokens(ng))
  {
    var Passed(h, b, ng) := Screen(rules, db, env);
    PassedParts(rules, db, env);
    var text := Receive.Outcome([], env.chunks, rules.maxPostSize).text;
    Receive.StaysInBuffer([], env.chunks, rules.maxPostSize);
    Receive.SplitArticleFacts(text);
    NameErrorIff(db, Tokens(ng));
    assert forall i :: 0 <= i < |Tokens(ng)| ==> Tokens(ng)[i] in Tokens(ng);
  }

  lemma PassedParts(rules: Rules, db: Db, env: Env)
    requires Screen(rules, db, env).Passed?
    ensures var Passed(h, b, ng) := Screen(rules, db, env);
            var r := Receive.Outcome([], env.chunks, rules.maxPostSize);
            r.Complete? && Receive.SplitArticle(r.text) == Receive.Parts(h, b) && NameError(db, Tokens(ng)) == None
  {
  }

  lemma NoBufferNoPosting(rules: Rules, db: Db, env: Env)
    requires rules.maxPostSize == 0
    ensures !Screen(rules, db, env).Passed?
  {
  }

  function Posted(rules: Rules, st: Store, p: Policy, env: Env): (Store, Answer) {
    match Screen(rules, st.db, env)
    case Refused(outcome) => (st, outcome)
    case Passed(header, body, ngstrp) =>
      assert |body| >= 3 && AllExist(st.db, Tokens(ngstrp)) by {
        if rules.maxPostSize > 0 { PassedFacts(rules, st.db, env); }
        else { NoBufferNoPosting(rules, st.db, env); }
      }
      Stored(st, p, env, header, body, ngstrp)
  }

  // ---------- The code ----------

  class Spool {
    var bodies: map<string, string>
    var counter: nat

    constructor (bodies: map<string, string>, counter: nat)
      ensures this.bodies == bodies && this.counter == counter
    {
      this.bodies, this.counter := bodies, counter;
    }

    /** Reads, increments and rewrites the number; the id is open at the end for a host.  When the
        file cannot be used there is no id and the number stays. */
    method GetUniqnum(fileOk: bool) returns (newid: Option<string>)
      modifies this`counter
      ensures fileOk ==> counter == old(counter) + 1 && newid == Some("<cdp" + Dec(counter) + "@")
      ensures !fileOk ==> counter == old(counter) && newid == None
    {
      if !fileOk {
        return None;
      }
      counter := counter + 1;
      newid := Some("<cdp" + Dec(counter) + "@");
    }

    method SaveBody(id: string, body: string)
      modifies this`bodies
      ensures bodies == old(bodies)[FileName(id) := body]
    {
      bodies := bodies[FileName(id) := body];
    }
  }

  function StoreOf(db: Database, spool: Spool): Store
    reads db, spool
  {
    Store(db.State(), spool.bodies, spool.counter)
  }

  /** The first of the two loops over the comma list. */
  method CheckNames(db: Database, ngstrp: string) returns (error: Option<nat>)
    ensures error == NameError(db.State(), Tokens(ngstrp))
  {
    var newsgroup, saveptr := StrTok(ngstrp);
    ghost var names := Tokens(ngstrp);
    while newsgroup.Some?
      invariant names == if newsgroup.None? then [] else [newsgroup.value] + Tokens(saveptr)
      invariant NameError(db.State(), names) == NameError(db.State(), Tokens(ngstrp))
      decreases |names|
    {
      assert names[0] == newsgroup.value && names[1..] == Tokens(saveptr);
      if newsgroup.value !in db.groups {
        return Some(411);
      }
      if db.groups[newsgroup.value].pflag != 'y' {
        return Some(441);
      }
      names := names[1..];
      newsgroup, saveptr := StrTok(saveptr);
    }
    return None;
  }

  /** Receiving, splitting and checking; nothing is changed. */
  method ReceiveAndScreen(rules: Rules, db: Database, env: Env) returns (s: Screened)
    requires forall i :: 0 <= i < |env.chunks| ==> Free(env.chunks[i], NUL)
    ensures s == Screen(rules, db.State(), env)
    ensures s.Passed? ==> Free(s.header, NUL)
  {
    var received, buf := Receive.ReceivePosting(env.chunks, rules.maxPostSize);
    if !received.Complete? {
      return Refused(Killed);
    }
    if rules.maxPostSize > 0 {
      Receive.StaysInBuffer([], env.chunks, rules.maxPostSize);
    }
    var parts := Receive.SplitBuffer(buf, received.text);
    if parts.Garbage? {
      return Refused(Killed);
    }
    if !rules.requiredLines(parts.header) {
      return Refused(Answered(441));
    }
    var ngstrp := LineLookup.ReturnLineValue(parts.header, "Newsgroups:");
    if ngstrp.None? {
      return Refused(Answered(441));
    }
    var error := CheckNames(db, ngstrp.value);
    if error.Some? {
      return Refused(Answered(error.value));
    }
    return Passed(parts.header, parts.body, ngstrp.value);
  }

  /** The header that goes into the table: own lines first, then the edited client header. */
  method BuildPosting(env: Env, id: string, header: string, body: string, ngstrp: string) returns (posting: Posting)
    requires EndsWith(header, CRLF) && Free(header, NUL) && EndsWith(body, ".\r\n")
    ensures posting == PostingOf(env, id, header, body, ngstrp)
  {
    var edited := HeaderEdit.RemoveLines(header);
    var linecount := Receive.CountLines(body);
    var own := Printed(OwnLines(env, id, linecount, |body|), 0x7fd);
    var subj := LineLookup.ReturnLineValue(edited, "Subject:");
    var from := LineLookup.ReturnLineValue(edited, "From:");
    posting := Posting(env.now, Quoted(TextOf(from)), ngstrp, Quoted(TextOf(subj)), linecount, own + edited);
  }

  /** The body file first, then the posting, then its groups. */
  method SaveAndDeliver(db: Database, spool: Spool, p: Policy, id: string, posting: Posting, body: string,
                        ngstrp: string)
    returns (outcome: Answer)
    requires AllExist(db.State(), Tokens(ngstrp))
    modifies db, spool`bodies
    ensures spool.bodies == old(spool.bodies)[FileName(id) := body]
    ensures id in old(db.State()).postings ==> db.State() == old(db.State()) && outcome == Killed
    ensures id !in old(db.State()).postings ==>
              var st := old(db.State());
              var (st', ending) := Deliver(st.(postings := st.postings[id := posting]), id, Tokens(ngstrp), p, []);
              db.State() == st' && outcome == if ending == Done then Answered(240) else Killed
  {
    spool.SaveBody(id, body);
    var ok := db.InsertIntoPostings(id, posting);
    if !ok {
      return Killed;
    }
    var ending := DeliverAll(db, id, ngstrp, p);
    return if ending == Done then Answered(240) else Killed;
  }

  /** With a number and a date, what these steps come to. */
  lemma StoredIs(st: Store, p: Policy, env: Env, header: string, body: string, ngstrp: string,
                 st': Store, outcome: Answer)
    requires |body| >= 3 && AllExist(st.db, Tokens(ngstrp)) && env.counterOk && env.clockOk
    requires st'.counter == st.counter + 1
    requires var id := MessageId(st.counter + 1, env.host);
             && st'.bodies == st.bodies[FileName(id) := body]
             && (id in st.db.postings ==> st'.db == st.db && outcome == Killed)
             && (id !in st.db.postings ==>
                   var posting := PostingOf(env, id, header, body, ngstrp);
                   var db := st.db.(postings := st.db.postings[id := posting]);
                   var (db', ending) := Deliver(db, id, Tokens(ngstrp), p, []);
                   st'.db == db' && outcome == if ending == Done then Answered(240) else Killed)
    ensures (st', outcome) == Stored(st, p, env, header, body, ngstrp)
  {
  }

  method StoreAndDeliver(db: Database, spool: Spool, p: Policy, env: Env, header: string, body: string, ngstrp: string)
    returns (outcome: Answer)
    requires EndsWith(header, CRLF) && Free(header, NUL) && EndsWith(body, ".\r\n")
    requires AllExist(db.State(), Tokens(ngstrp))
    modifies db, spool
    ensures (StoreOf(db, spool), outcome) == Stored(old(StoreOf(db, spool)), p, env, header, body, ngstrp)
  {
    var newid := spool.GetUniqnum(env.counterOk);
    if newid.None? {
      return Killed;
    }
    var id := newid.value + env.host + ">";
    assert id == MessageId(spool.counter, env.host);
    if !env.clockOk {
      return Killed;
    }
    var posting := BuildPosting(env, id, header, body, ngstrp);
    outcome := SaveAndDeliver(db, spool, p, id, posting, body, ngstrp);
    StoredIs(old(StoreOf(db, spool)), p, env, header, body, ngstrp, StoreOf(db, spool), outcome);
  }

  method DocmdPost(rules: Rules, db: Database, spool: Spool, p: Policy, env: Env) returns (outcome: Answer)
    requires forall i :: 0 <= i < |env.chunks| ==> Free(env.chunks[i], NUL)
    modifies db, spool
    ensures (StoreOf(db, spool), outcome) == Posted(rules, old(StoreOf(db, spool)), p, env)
  {
    var s := ReceiveAndScreen(rules, db, env);
    match s
    case Refused(result) =>
      outcome := result;
    case Passed(header, body, ngstrp) =>
      assert rules.maxPostSize > 0 by {
        if rules.maxPostSize == 0 { NoBufferNoPosting(rules, db.State(), env); }
      }
      PassedFacts(rules, db.State(), env);
      outcome := StoreAndDeliver(db, spool, p, env, header, body, ngstrp);
  }
}
