/** adduser and AUTHINFO together, over whole runs: which passwords a client can log in with. */
module Login {
  import opened CStrings
  import opened Tables
  import opened Post
  import opened Tokenizer
  import opened Session
  import opened SessionFacts
  import opened CommandReader
  import opened CommandLines
  import opened Admin
  import opened System
  import opened SessionRuns

  // ---------- The password on the command line ----------

  const USER := "authinfo user "
  const PASS := "authinfo pass "

  /** What AUTHINFO PASS reads when the client sends this text behind it. */
  function PasswordRead(text: string): Option<string> {
    var line := CommandLine(PASS + text + CRLF);
    if line.None? then None else NthWord(line.value, 2)
  }

  /** The line is not longer than the buffer. */
  predicate Fits(text: string) {
    |text| + 16 <= MAX_CMDLEN
  }

  lemma HeadsArePlain()
    ensures Head(USER) && Head(PASS)
  {
  }

  lemma WordBehind(text: string)
    ensures NthWord(USER + text, 2) == NthWord(text, 0)
    ensures NthWord(PASS + text, 2) == NthWord(text, 0)
  {
    ThirdWord("user", text);
    ThirdWord("pass", text);
    assert USER + text == "authinfo " + "user" + " " + text;
    assert PASS + text == "authinfo " + "pass" + " " + text;
  }

  /** The first word of the text up to its first line feed, single quotes doubled. */
  lemma PasswordReadIs(text: string)
    requires Free(text, '\r') && Fits(text)
    ensures PasswordRead(text) == NthWord(Quoted(UpToFeed(text)), 0)
  {
    HeadsArePlain();
    LineArrives(PASS, text);
    WordBehind(Quoted(UpToFeed(text)));
  }

  /** A text that is read as it was typed: one word without a single quote, a line feed at its end at
      most. */
  predicate Typable(pass: string) {
    PlainWord(pass) && Free(pass, '\'') && FeedLast(pass)
  }

  lemma PasswordComesBack(pass: string)
    requires Fits(pass)
    ensures PasswordRead(pass) == Some(pass) <==> Typable(pass)
  {
    var line, u := CommandLine(PASS + pass + CRLF), UpToFeed(pass);
    if line.Some? { ArgIsPlain(line.value, 2); }
    if PlainWord(pass) {
      PasswordReadIs(pass);
      UpToFeedFacts(pass);
      UpToFeedPlain(pass);
      QuotedPlain(u);
      OnlyWord(Quoted(u));
      FeedLastQuoted(u);
      QuotedGrows(u);
    }
  }

  /** Whatever is typed, a password with a space, a CR or an early line feed is never read. */
  lemma OutOfReach(text: string, pass: string)
    requires !(PlainWord(pass) && FeedLast(pass))
    ensures PasswordRead(text) != Some(pass)
  {
    var line := CommandLine(PASS + text + CRLF);
    if line.Some? {
      ArgIsPlain(line.value, 2);
      ArgFeedLast(PASS + text + CRLF, 2);
    }
  }

  /** Of a password of two words only the first is read. */
  lemma TwoWords(a: string, b: string)
    requires PlainWord(a) && Free(a, '\'') && Free(a, '\n') && OneLine(b) && Fits(a + " " + b)
    ensures PasswordRead(a + " " + b) == Some(a)
  {
    PasswordReadIs(a + " " + b);
    UpToFeedFacts(a + " " + b);
    QuotedAppend(a + " ", b);
    QuotedGrows(a + " ");
    WordsBehind(a, Quoted(b));
    OnlyWord(a);
    assert Words(a + " " + Quoted(b))[0] == a;
  }

  // ---------- The user table over runs ----------

  lemma StepKeepsUsers(cfg: Config, w: World, e: Event, u: string)
    ensures var users := Step(cfg, w, e).store.db.users;
            && (u in w.store.db.users && e != Administers(DelUser(u)) ==> u in users && users[u] == w.store.db.users[u])
            && (u !in w.store.db.users && !(e.Administers? && e.cmd.AddUser? && e.cmd.name == u) ==> u !in users)
  {
    match e
    case Sends(sid, sent, io) =>
      if sid in w.sessions {
        ServeOnlyGrows(cfg, w.store, w.sessions[sid], sent, io);
      }
    case _ =>
  }

  /** adduser took effect at event k, and no deluser of that name came before state j. */
  predicate PasswordSet(r: Run, k: nat, j: nat, u: string, pass: string)
    requires j <= |r.ev| < |r.ws|
  {
    && k < j && r.ev[k] == Administers(AddUser(u, pass)) && Goes(r.ws[k].store.db, AddUser(u, pass))
    && forall m :: k < m < j ==> r.ev[m] != Administers(DelUser(u))
  }

  /** deluser took effect at event k, and no adduser of that name came before state j. */
  predicate UserRemoved(r: Run, k: nat, j: nat, u: string)
    requires j <= |r.ev| < |r.ws|
  {
    && k < j && r.ev[k] == Administers(DelUser(u)) && Goes(r.ws[k].store.db, DelUser(u))
    && forall m :: k < m < j ==> !(r.ev[m].Administers? && r.ev[m].cmd.AddUser? && r.ev[m].cmd.name == u)
  }

  lemma {:induction false} HashStays(r: Run, k: nat, j: nat, u: string, pass: string)
    requires IsRun(r) && j <= |r.ev| && PasswordSet(r, k, j, u, pass)
    ensures u in r.ws[j].store.db.users && r.ws[j].store.db.users[u] == r.cfg.hash(u, pass)
    decreases j
  {
    assert Linked(r, j - 1);
    if k < j - 1 {
      HashStays(r, k, j - 1, u, pass);
      StepKeepsUsers(r.cfg, r.ws[j - 1], r.ev[j - 1], u);
    }
  }

  lemma {:induction false} UserStaysAway(r: Run, k: nat, j: nat, u: string)
    requires IsRun(r) && j <= |r.ev| && UserRemoved(r, k, j, u)
    ensures u !in r.ws[j].store.db.users
    decreases j
  {
    assert Linked(r, j - 1);
    if k < j - 1 {
      UserStaysAway(r, k, j - 1, u);
      StepKeepsUsers(r.cfg, r.ws[j - 1], r.ev[j - 1], u);
    }
  }

  // ---------- Logging in ----------

  /** Session sid sends AUTHINFO USER u at event i and, as its next command, AUTHINFO PASS with this
      text at event j, on TLS where that is mandatory. */
  ghost predicate LogsIn(r: Run, i: nat, j: nat, sid: nat, u: string, text: string)
    requires IsRun(r)
  {
    && i < j < |r.ev| && Runs(r, i, sid) && Runs(r, j, sid)
    && (Runner(r, i, sid).tls || !r.cfg.tlsMandatory)
    && r.ev[i].sent == USER + u + CRLF && r.ev[j].sent == PASS + text + CRLF
    && forall m :: i < m < j ==> !Turns(r, m, sid)
  }

  /** A name that arrives as it was typed. */
  predicate PlainName(u: string) {
    PlainWord(u) && Free(u, '\'') && Free(u, '\n')
  }

  lemma NameArrives(u: string)
    requires PlainName(u) && CommandLine(USER + u + CRLF).Some?
    ensures CommandLine(USER + u + CRLF) == Some(USER + u) && NthWord(USER + u, 2) == Some(u)
  {
    HeadsArePlain();
    WholeLineFits(USER + u);
    LineArrives(USER, u);
    UpToFeedFacts(u);
    QuotedGrows(u);
    WordBehind(u);
    OnlyWord(u);
  }

  lemma UserLine(cfg: Config, st: Store, c: Conn, sent: string, u: string, io: Io)
    requires sent == USER + u + CRLF && CommandLine(sent).Some? && PlainName(u) && (c.tls || !cfg.tlsMandatory)
    ensures DoCommand(cfg, st, c, CommandLine(sent).value, io)
            == (st, c.(auth := false, user := Some(u)), Line(381))
  {
    NameArrives(u);
    ReachesAuthinfo(u, Allowed(cfg, c));
  }

  /** How AUTHINFO PASS is answered when a name has been given. */
  function PassCode(cfg: Config, db: Db, u: string, word: Option<string>): nat {
    if word.None? then 501 else if PasswordFits(cfg, db, u, word.value) then 281 else 482
  }

  lemma PassHandled(cfg: Config, st: Store, c: Conn, u: string, rest: string, io: Io)
    requires c.user == Some(u) && (c.tls || !cfg.tlsMandatory)
    ensures DoCommand(cfg, st, c, PASS + rest, io).2 == Line(PassCode(cfg, st.db, u, NthWord(PASS + rest, 2)))
  {
    ReachesAuthinfo(rest, Allowed(cfg, c));
  }

  lemma PassStarts(sent: string, text: string) returns (rest: string)
    requires sent == PASS + text + CRLF && CommandLine(sent).Some?
    ensures CommandLine(sent).value == PASS + rest
  {
    HeadsArePlain();
    assert sent == PASS + (text + CRLF);
    rest := LineStarts(PASS, text + CRLF);
  }

  lemma PassLine(cfg: Config, st: Store, c: Conn, u: string, sent: string, text: string, io: Io)
    requires sent == PASS + text + CRLF && CommandLine(sent).Some?
    requires c.user == Some(u) && (c.tls || !cfg.tlsMandatory)
    ensures DoCommand(cfg, st, c, CommandLine(sent).value, io).2
            == Line(PassCode(cfg, st.db, u, PasswordRead(text)))
  {
    var rest := PassStarts(sent, text);
    PassHandled(cfg, st, c, u, rest, io);
  }

  lemma NameTaken(r: Run, i: nat, sid: nat, u: string)
    requires IsRun(r) && i < |r.ev| && Runs(r, i, sid) && (Runner(r, i, sid).tls || !r.cfg.tlsMandatory)
    requires PlainName(u) && r.ev[i].sent == USER + u + CRLF
    ensures sid in r.ws[i + 1].sessions
    ensures r.ws[i + 1].sessions[sid] == Runner(r, i, sid).(auth := false, user := Some(u))
  {
    OwnStep(r, i, sid);
    UserLine(r.cfg, r.ws[i].store, Runner(r, i, sid), r.ev[i].sent, u, r.ev[i].io);
  }

  lemma NameAnswered(r: Run, i: nat, sid: nat, u: string)
    requires IsRun(r) && i < |r.ev| && Runs(r, i, sid) && (Runner(r, i, sid).tls || !r.cfg.tlsMandatory)
    requires PlainName(u) && r.ev[i].sent == USER + u + CRLF
    ensures r.replies[i] == Line(381)
  {
    UserLine(r.cfg, r.ws[i].store, Runner(r, i, sid), r.ev[i].sent, u, r.ev[i].io);
    assert Linked(r, i);
  }

  lemma NothingPending(c: Conn, io: Io, u: string, later: Io)
    ensures var named := Ready(c, io).(auth := false, user := Some(u)); Ready(named, later) == named
  {
  }

  /** When PASS comes, the session is as USER left it. */
  lemma NameIsHeld(r: Run, i: nat, j: nat, sid: nat, u: string, text: string)
    requires IsRun(r) && PlainName(u) && LogsIn(r, i, j, sid, u, text)
    ensures Runner(r, j, sid) == Runner(r, i, sid).(auth := false, user := Some(u))
  {
    NameTaken(r, i, sid, u);
    SessionWaits(r, i + 1, j, sid);
    NothingPending(r.ws[i].sessions[sid], r.ev[i].io, u, r.ev[j].io);
  }

  /** The answer to a login, whatever happens in between in other sessions. */
  lemma LoginAnswer(r: Run, i: nat, j: nat, sid: nat, u: string, text: string)
    requires IsRun(r) && PlainName(u) && LogsIn(r, i, j, sid, u, text)
    ensures r.replies[i] == Line(381)
    ensures r.replies[j] == Line(PassCode(r.cfg, r.ws[j].store.db, u, PasswordRead(text)))
  {
    NameAnswered(r, i, sid, u);
    NameIsHeld(r, i, j, sid, u, text);
    PassLine(r.cfg, r.ws[j].store, Runner(r, j, sid), u, r.ev[j].sent, text, r.ev[j].io);
    assert Linked(r, j);
  }

  /** adduser and AUTHINFO in any run: 281 exactly when the word read from the line hashes like the
      password set, and never after deluser. */
  lemma LoginRoundTrip(r: Run, k: nat, i: nat, j: nat, sid: nat, u: string, pass: string, text: string)
    requires IsRun(r) && u != [] && UserName(u) && LogsIn(r, i, j, sid, u, text)
    ensures PasswordSet(r, k, j, u, pass) ==>
              var word := PasswordRead(text);
              (r.replies[j] == Line(281) <==> word.Some? && r.cfg.hash(u, word.value) == r.cfg.hash(u, pass))
    ensures UserRemoved(r, k, j, u) ==> r.replies[j] != Line(281)
  {
    LoginAnswer(r, i, j, sid, u, text);
    if PasswordSet(r, k, j, u, pass) {
      HashStays(r, k, j, u, pass);
    }
    if UserRemoved(r, k, j, u) {
      UserStaysAway(r, k, j, u);
    }
  }

  /** No other word hashes like the password. */
  ghost predicate Unequalled(cfg: Config, u: string, pass: string) {
    forall w :: cfg.hash(u, w) == cfg.hash(u, pass) ==> w == pass
  }

  /** So typing the password that was set is enough if it is typable; and only then, when no other
      word hashes alike. */
  lemma OwnPassword(r: Run, k: nat, i: nat, j: nat, sid: nat, u: string, pass: string)
    requires IsRun(r) && u != [] && UserName(u) && LogsIn(r, i, j, sid, u, pass) && PasswordSet(r, k, j, u, pass)
    ensures Typable(pass) ==> r.replies[j] == Line(281)
    ensures Unequalled(r.cfg, u, pass) ==> (r.replies[j] == Line(281) <==> Typable(pass))
  {
    LoginRoundTrip(r, k, i, j, sid, u, pass, pass);
    PasswordComesBack(pass);
  }

  /** And nothing that could be typed instead gets through, for a password with a space, a CR or a line
      feed before its end. */
  lemma NoWayIn(r: Run, k: nat, i: nat, j: nat, sid: nat, u: string, pass: string, text: string)
    requires IsRun(r) && u != [] && UserName(u) && LogsIn(r, i, j, sid, u, text) && PasswordSet(r, k, j, u, pass)
    requires Unequalled(r.cfg, u, pass) && !(PlainWord(pass) && FeedLast(pass))
    ensures r.replies[j] != Line(281)
  {
    LoginRoundTrip(r, k, i, j, sid, u, pass, text);
    OutOfReach(text, pass);
  }

  const TWO_WORDS := "correct horse"
  const TWO_LINES := "correct\nhorse"

  lemma BadPasswords(db: Db)
    requires "u" !in db.users
    ensures Goes(db, AddUser("u", TWO_WORDS)) && Goes(db, AddUser("u", TWO_LINES))
    ensures PasswordRead(TWO_WORDS) == Some("correct") && !FeedLast(TWO_LINES)
  {
    TwoWords("correct", "horse");
    assert "correct" + " " + "horse" == TWO_WORDS;
    assert TWO_LINES[7] == '\n';
    assert "u"[0] == 'u';
  }

  /** adduser accepts a password of two words, and typing it does not log in. */
  lemma TwoWordsAreRejected(r: Run, k: nat, i: nat, j: nat, sid: nat)
    requires IsRun(r) && LogsIn(r, i, j, sid, "u", TWO_WORDS) && PasswordSet(r, k, j, "u", TWO_WORDS)
    requires r.cfg.hash("u", "correct") != r.cfg.hash("u", TWO_WORDS)
    ensures r.replies[j] == Line(482)
  {
    BadPasswords(r.ws[k].store.db);
    LoginAnswer(r, i, j, sid, "u", TWO_WORDS);
    HashStays(r, k, j, "u", TWO_WORDS);
  }

  /** It accepts one of two lines as well; whatever is typed, that one does not log in. */
  lemma TwoLinesAreRejected(r: Run, k: nat, i: nat, j: nat, sid: nat, text: string)
    requires IsRun(r) && LogsIn(r, i, j, sid, "u", text) && PasswordSet(r, k, j, "u", TWO_LINES)
    requires Unequalled(r.cfg, "u", TWO_LINES)
    ensures r.replies[j] != Line(281)
  {
    BadPasswords(r.ws[k].store.db);
    NoWayIn(r, k, i, j, sid, "u", TWO_LINES, text);
  }
}
