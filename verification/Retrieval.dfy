/** From a stored article to the reply a client gets: asking by number or by message-id. */
module Retrieval {
  import opened CStrings
  import opened Tables
  import opened Delivery
  import opened Post
  import opened Reading
  import opened Tokenizer
  import opened Session
  import opened SessionFacts
  import opened CommandReader
  import opened CommandLines
  import opened System
  import opened SessionRuns

  // ---------- What the argument names ----------

  lemma NumberIsRead(n: nat, affinity: Affinity)
    ensures PlainWord(Dec(n)) && NumberOf(affinity, Dec(n)) == Some(n)
  {
    DecRoundTrip(n);
  }

  /** A host name as it stands in an id that clients can send back. */
  predicate PlainHost(host: string) {
    Free(host, '>') && Free(host, ' ') && Free(host, '\'') && OneLine(host)
  }

  lemma FirstClose(inner: string)
    requires Free(inner, '>')
    ensures IdArgument(inner + ">") == Some(inner + ">")
  {
    var id := inner + ">";
    assert At(id, |inner|, ">");
    forall q: nat | At(id, q, ">") ensures id[q] == '>' {
      assert id[q] == id[q..q + 1][0];
    }
    assert id[..|inner| + 1] == id;
  }

  /** An id without its closing bracket. */
  function OpenId(k: nat, host: string): (s: string)
    ensures MessageId(k, host) == s + ">"
  {
    "<cdp" + Dec(k) + "@" + host
  }

  lemma OpenIdFree(k: nat, host: string, c: char)
    requires c !in "<cdp@" && !IsDigit(c)
    ensures Free(OpenId(k, host), c) <==> Free(host, c)
  {
    var s, head := OpenId(k, host), "<cdp" + Dec(k) + "@";
    assert s == head + host && Free(head, c);
    assert forall i :: 0 <= i < |host| ==> s[|head| + i] == host[i];
  }

  lemma IdIsRead(k: nat, host: string)
    requires PlainHost(host)
    ensures var id := MessageId(k, host);
            PlainWord(id) && id[0] == '<' && IdArgument(id) == Some(id)
  {
    OpenIdFree(k, host, '>');
    OpenIdFree(k, host, ' ');
    OpenIdFree(k, host, '\r');
    FirstClose(OpenId(k, host));
  }

  /** ARTICLE, HEAD, BODY and STAT with a number, whatever number: the message that has it in the
      selected group, which becomes the current article; and 430, with the pointer where it was, exactly
      when none has. */
  lemma AskedByNumber(st: Store, c: Conn, letter: char, g: string, n: nat, affinity: Affinity)
    requires c.group == Some(g)
    ensures var m := MessageAt(st.db, g, n);
            ArticleCmd(st, c, letter, Some(Dec(n)), affinity)
            == if m.None? then (c.(foundArticle := false), Line(430))
               else (c.(article := Some(n), foundArticle := true), Text(Shown(st, letter, n, m.value)))
  {
    NumberIsRead(n, affinity);
  }

  /** With a text that starts like a number and is none: the number SQLite reads from it, if any. */
  lemma AskedByText(st: Store, c: Conn, letter: char, g: string, text: string, affinity: Affinity)
    requires c.group == Some(g) && text != [] && IsDigit(text[0]) && !AllDigits(text)
    ensures ArticleCmd(st, c, letter, Some(text), affinity)
            == if affinity(text).None? || MessageAt(st.db, g, affinity(text).value).None?
               then (c.(foundArticle := false), Line(430))
               else
                 var n := affinity(text).value;
                 (c.(article := Some(n), foundArticle := true),
                  Text(Shown(st, letter, n, MessageAt(st.db, g, n).value)))
  {
  }

  /** With the id of a message of the group: that message, which becomes the current article; 430 when it
      is not in the group. */
  lemma AskedById(st: Store, c: Conn, letter: char, g: string, k: nat, host: string, affinity: Affinity)
    requires c.group == Some(g) && PlainHost(host)
    ensures var id := MessageId(k, host);
            ArticleCmd(st, c, letter, Some(id), affinity)
            == if Key(id, g) !in st.db.ngposts then (c.(foundArticle := false), Line(430))
               else
                 var n := st.db.ngposts[Key(id, g)];
                 (c.(article := Some(n), foundArticle := true), Text(Shown(st, letter, n, id)))
  {
    IdIsRead(k, host);
  }

  /** Without an argument: the current article; 430, with the pointer where it was, when it is gone. */
  lemma AskedBare(st: Store, c: Conn, letter: char, g: string, n: nat, affinity: Affinity)
    requires c.group == Some(g) && c.article == Some(n)
    ensures var m := MessageAt(st.db, g, n);
            ArticleCmd(st, c, letter, None, affinity)
            == if m.None? then (c.(foundArticle := false), Line(430))
               else (c.(foundArticle := true), Text(Shown(st, letter, n, m.value)))
  {
  }

  /** The argument names this message: by its number, or by its id if that can be sent back. */
  predicate NamesMessage(arg: string, n: nat, k: nat, host: string) {
    arg == Dec(n) || (arg == MessageId(k, host) && PlainHost(host))
  }

  lemma Asked(st: Store, c: Conn, letter: char, arg: string, g: string, n: nat, k: nat, host: string,
              affinity: Affinity)
    requires NoNumberTwice(st.db) && Row(st.db, MessageId(k, host), g, n)
    requires c.group == Some(g) && NamesMessage(arg, n, k, host)
    ensures PlainArg(arg)
    ensures ArticleCmd(st, c, letter, Some(arg), affinity)
            == (c.(article := Some(n), foundArticle := true), Text(Shown(st, letter, n, MessageId(k, host))))
  {
    NumberIsRead(n, affinity);
    if arg == Dec(n) {
      MessageAtIs(st.db, g, n, MessageId(k, host));
      AskedByNumber(st, c, letter, g, n, affinity);
    } else {
      IdIsRead(k, host);
      AskedById(st, c, letter, g, k, host, affinity);
      OpenIdFree(k, host, '\'');
      OpenIdFree(k, host, '\n');
    }
  }

  // ---------- Command lines ----------

  /** The id that ARTICLE, HEAD, BODY or STAT looks for when a client sends this text behind it. */
  function IdSought(verb: string, text: string): Option<string> {
    var line := CommandLine(verb + " " + text + CRLF);
    if line.None? then None
    else
      var word := NthWord(line.value, 1);
      if word.None? then None else IdArgument(word.value)
  }

  lemma SoughtIsPlain(verb: string, k: nat, host: string)
    requires IdSought(verb, MessageId(k, host)) == Some(MessageId(k, host))
    ensures Free(host, '>') && Free(host, ' ') && Free(host, '\r')
  {
    var line, id := CommandLine(verb + " " + MessageId(k, host) + CRLF).value, MessageId(k, host);
    ArgIsPlain(line, 1);
    var w := NthWord(line, 1).value;
    var p := Find(w, ">", 0).value;
    assert id == w[..p + 1] == OpenId(k, host) + ">";
    forall q: nat | q < p ensures w[q] != '>' {
      assert !At(w, q, ">");
      assert w[q..q + 1] == [w[q]];
    }
    assert OpenId(k, host) == w[..p];
    OpenIdFree(k, host, '>');
    OpenIdFree(k, host, ' ');
    OpenIdFree(k, host, '\r');
  }

  lemma CutIdHasNoClose(k: nat, host: string)
    requires Free(host, '>') && !Free(host, '\n')
    ensures Free(Quoted(UpToFeed(MessageId(k, host))), '>')
  {
    var id := MessageId(k, host);
    OpenIdFree(k, host, '>');
    OpenIdFree(k, host, '\n');
    UpToFeedFacts(id);
    var u := UpToFeed(id);
    assert u != id by {
      assert OpenId(k, host) == id[..|id| - 1];
    }
    assert u <= OpenId(k, host);
    QuotedFree(u, '>');
  }

  lemma QuotedIdSought(k: nat, host: string)
    requires Free(host, '>')
    ensures IdArgument(Quoted(MessageId(k, host))) == Some(Quoted(MessageId(k, host)))
  {
    var inner := OpenId(k, host);
    OpenIdFree(k, host, '>');
    QuotedAppend(inner, ">");
    assert Quoted(">") == ">";
    QuotedFree(inner, '>');
    FirstClose(Quoted(inner));
  }

  /** Without brackets, spaces and CRs in the host, what is looked for. */
  lemma SoughtIs(verb: string, k: nat, host: string)
    requires Verb(verb) && |verb + " " + MessageId(k, host) + CRLF| <= MAX_CMDLEN
    requires Free(host, '>') && Free(host, ' ') && Free(host, '\r')
    ensures IdSought(verb, MessageId(k, host)) == IdArgument(Quoted(UpToFeed(MessageId(k, host))))
  {
    OpenIdFree(k, host, ' ');
    OpenIdFree(k, host, '\r');
    VerbIsPlain(verb, []);
    WordArrives(verb, MessageId(k, host));
  }

  lemma QuotesDecide(k: nat, host: string)
    requires Free(host, '>') && Free(host, '\n')
    ensures IdArgument(Quoted(UpToFeed(MessageId(k, host)))) == Some(MessageId(k, host)) <==> Free(host, '\'')
  {
    OpenIdFree(k, host, '\n');
    OpenIdFree(k, host, '\'');
    UpToFeedFacts(MessageId(k, host));
    QuotedIdSought(k, host);
    QuotedGrows(MessageId(k, host));
  }

  /** The id looked for is the id sent if and only if the host is plain. */
  lemma IdComesBack(verb: string, k: nat, host: string)
    requires Verb(verb) && |verb + " " + MessageId(k, host) + CRLF| <= MAX_CMDLEN
    ensures IdSought(verb, MessageId(k, host)) == Some(MessageId(k, host)) <==> PlainHost(host)
  {
    var id := MessageId(k, host);
    if IdSought(verb, id) == Some(id) {
      SoughtIsPlain(verb, k, host);
    }
    if Free(host, '>') && Free(host, ' ') && Free(host, '\r') {
      SoughtIs(verb, k, host);
      if Free(host, '\n') {
        QuotesDecide(k, host);
      } else {
        CutIdHasNoClose(k, host);
        NoClose(Quoted(UpToFeed(id)));
      }
    }
  }

  predicate MayRead(cfg: Config, c: Conn, g: string) {
    (c.auth || !cfg.useAuth) && (c.tls || !cfg.tlsMandatory) && c.group == Some(g)
  }

  lemma HandledAsArticle(cfg: Config, st: Store, c: Conn, line: string, io: Io)
    requires Classify(line, true) == Article && (c.auth || !cfg.useAuth) && (c.tls || !cfg.tlsMandatory)
    ensures var (c', r) := ArticleCmd(st, c, FirstLetter(line), NthWord(line, 1), cfg.affinity);
            DoCommand(cfg, st, c, line, io) == (st, c', r)
  {
    assert Reached(cfg, c, line) == Some(Article);
  }

  /** One of the four commands with a plain argument, or bare. */
  predicate SendsVerb(sent: string, verb: string, arg: Option<string>) {
    Verb(verb) && (arg.Some? ==> PlainArg(arg.value))
    && sent == if arg.Some? then verb + " " + arg.value + CRLF else verb + CRLF
  }

  lemma VerbArrives(sent: string, verb: string, arg: Option<string>) returns (line: string)
    requires SendsVerb(sent, verb, arg) && CommandLine(sent).Some?
    ensures CommandLine(sent) == Some(line) && Classify(line, true) == Article
    ensures FirstLetter(line) == Lower(verb[0]) && NthWord(line, 1) == arg
  {
    VerbIsPlain(verb, []);
    if arg.Some? {
      line := verb + " " + arg.value;
      WholeLineFits(line);
      ArgArrives(verb, arg.value);
      assert line == verb + (" " + arg.value);
      ReachesArticle(verb, " " + arg.value);
    } else {
      line := verb;
      WholeLineFits(line);
      BareArrives(verb);
      assert verb + [] == verb;
      ReachesArticle(verb, []);
    }
  }

  lemma VerbHandled(cfg: Config, st: Store, c: Conn, sent: string, verb: string, arg: Option<string>, io: Io)
    requires SendsVerb(sent, verb, arg) && CommandLine(sent).Some?
    requires (c.auth || !cfg.useAuth) && (c.tls || !cfg.tlsMandatory)
    ensures var (c', r) := ArticleCmd(st, c, Lower(verb[0]), arg, cfg.affinity);
            DoCommand(cfg, st, c, CommandLine(sent).value, io) == (st, c', r)
  {
    var line := VerbArrives(sent, verb, arg);
    HandledAsArticle(cfg, st, c, line, io);
  }

  /** What it comes to in a run: the reply, and the session afterwards. */
  lemma AnswerAt(r: Run, j: nat, sid: nat, verb: string, arg: Option<string>, g: string)
    requires IsRun(r) && j < |r.ev| && Runs(r, j, sid) && SendsVerb(r.ev[j].sent, verb, arg)
    requires MayRead(r.cfg, Runner(r, j, sid), g)
    ensures sid in r.ws[j + 1].sessions
    ensures (r.ws[j + 1].sessions[sid], r.replies[j])
            == ArticleCmd(r.ws[j].store, Runner(r, j, sid), Lower(verb[0]), arg, r.cfg.affinity)
  {
    OwnStep(r, j, sid);
    VerbHandled(r.cfg, r.ws[j].store, Runner(r, j, sid), r.ev[j].sent, verb, arg, r.ev[j].io);
  }

  // ---------- Accepted articles ----------

  /** The status lines, spelled out. */
  lemma StatusInFull(n: nat, id: string)
    ensures Status('a', n, id) == "220 " + Dec(n) + " " + id + " article retrieved - head and body follow\r\n"
    ensures Status('h', n, id) == "221 " + Dec(n) + " " + id + " article retrieved - head follows\r\n"
    ensures Status('b', n, id) == "222 " + Dec(n) + " " + id + " article retrieved - body follows\r\n"
    ensures Status('s', n, id) == "223 " + Dec(n) + " " + id + " article retrieved - request text separately\r\n"
  {
  }

  lemma VerbLetter(verb: string)
    ensures Typed(verb, "article") ==> Lower(verb[0]) == 'a'
    ensures Typed(verb, "head") ==> Lower(verb[0]) == 'h'
    ensures Typed(verb, "body") ==> Lower(verb[0]) == 'b'
    ensures Typed(verb, "stat") ==> Lower(verb[0]) == 's'
  {
  }

  /** What the client gets: for every accepted POST and every later moment at which the article still
      is in the group, the reply to ARTICLE, HEAD, BODY or STAT with its number or its id; and it is the
      current article afterwards. */
  lemma ReplyIsTheArticle(r: Run, i: nat, j: nat, poster: nat, sid: nat, verb: string, arg: string, g: string, n: nat)
    requires IsRun(r) && i < j < |r.ev| && AcceptedAt(r, i, poster)
    requires Row(r.ws[j].store.db, MessageId(r.ws[i].store.counter + 1, r.ev[i].io.post.host), g, n)
    requires Runs(r, j, sid) && MayRead(r.cfg, Runner(r, j, sid), g)
    requires Verb(verb) && r.ev[j].sent == verb + " " + arg + CRLF
    requires NamesMessage(arg, n, r.ws[i].store.counter + 1, r.ev[i].io.post.host)
    ensures Screen(r.cfg.rules, r.ws[i].store.db, r.ev[i].io.post).Passed?
    ensures var Passed(header, body, _) := Screen(r.cfg.rules, r.ws[i].store.db, r.ev[i].io.post);
            var env, id := r.ev[i].io.post, MessageId(r.ws[i].store.counter + 1, r.ev[i].io.post.host);
            && EndsWith(body, ".\r\n")
            && (Typed(verb, "body") ==> r.replies[j] == Text(Status('b', n, id) + body))
            && (Typed(verb, "head") ==>
                  r.replies[j] == Text(Status('h', n, id) + (StoredHeader(env, id, header, body) + ".\r\n")))
            && (Typed(verb, "article") ==>
                  r.replies[j] == Text(Status('a', n, id) + ArticleText(env, id, header, body)))
            && (Typed(verb, "stat") ==> r.replies[j] == Text(Status('s', n, id)))
    ensures sid in r.ws[j + 1].sessions
    ensures r.ws[j + 1].sessions[sid] == Runner(r, j, sid).(article := Some(n), foundArticle := true)
  {
    StoredArticleRoundTrip(r, i, j, poster, g, n);
    ReachableIsSound(r, j);
    var env, st := r.ev[i].io.post, r.ws[j].store;
    var k := r.ws[i].store.counter + 1;
    Asked(st, Runner(r, j, sid), Lower(verb[0]), arg, g, n, k, env.host, r.cfg.affinity);
    AnswerAt(r, j, sid, verb, Some(arg), g);
    VerbLetter(verb);
    StatLine(st, n, MessageId(k, env.host));
    StatusInFull(n, MessageId(k, env.host));
  }

  // ---------- The current article over runs ----------

  /** The argument has just picked article n of the group. */
  ghost predicate Picks(db: Db, arg: string, g: string, n: nat) {
    (arg == Dec(n) && Has(db, g, n))
    || exists k: nat, host :: PlainHost(host) && arg == MessageId(k, host) && Row(db, arg, g, n)
  }

  lemma Picked(st: Store, c: Conn, letter: char, arg: string, g: string, n: nat, affinity: Affinity)
    requires c.group == Some(g) && Picks(st.db, arg, g, n)
    ensures PlainArg(arg)
    ensures ArticleCmd(st, c, letter, Some(arg), affinity).0 == c.(article := Some(n), foundArticle := true)
  {
    if arg == Dec(n) && Has(st.db, g, n) {
      NumberIsRead(n, affinity);
      AskedByNumber(st, c, letter, g, n, affinity);
    } else {
      var k: nat, host :| PlainHost(host) && arg == MessageId(k, host) && Row(st.db, arg, g, n);
      IdIsRead(k, host);
      OpenIdFree(k, host, '\'');
      OpenIdFree(k, host, '\n');
      AskedById(st, c, letter, g, k, host, affinity);
    }
  }

  /** Session sid picks article n of the group at event i. */
  ghost predicate PicksAt(r: Run, i: nat, sid: nat, verb: string, arg: string, g: string, n: nat)
    requires IsRun(r) && i < |r.ev|
  {
    && Runs(r, i, sid) && MayRead(r.cfg, Runner(r, i, sid), g) && Verb(verb)
    && r.ev[i].sent == verb + " " + arg + CRLF && Picks(r.ws[i].store.db, arg, g, n)
  }

  lemma PickedAt(r: Run, i: nat, sid: nat, verb: string, arg: string, g: string, n: nat)
    requires IsRun(r) && i < |r.ev| && PicksAt(r, i, sid, verb, arg, g, n)
    ensures sid in r.ws[i + 1].sessions
    ensures r.ws[i + 1].sessions[sid] == Runner(r, i, sid).(article := Some(n), foundArticle := true)
  {
    Picked(r.ws[i].store, Runner(r, i, sid), Lower(verb[0]), arg, g, n, r.cfg.affinity);
    AnswerAt(r, i, sid, verb, Some(arg), g);
  }

  lemma NothingPending(c: Conn, io: Io, n: nat, later: Io)
    ensures var picked := Ready(c, io).(article := Some(n), foundArticle := true); Ready(picked, later) == picked
  {
  }

  lemma StillPicked(r: Run, i: nat, j: nat, sid: nat, verb: string, arg: string, g: string, n: nat)
    requires IsRun(r) && i < j < |r.ev| && PicksAt(r, i, sid, verb, arg, g, n) && Runs(r, j, sid)
    requires forall l :: i < l < j ==> !Turns(r, l, sid)
    ensures Runner(r, j, sid) == Runner(r, i, sid).(article := Some(n), foundArticle := true)
  {
    PickedAt(r, i, sid, verb, arg, g, n);
    SessionWaits(r, i + 1, j, sid);
    NothingPending(r.ws[i].sessions[sid], r.ev[i].io, n, r.ev[j].io);
  }

  lemma BareAt(r: Run, j: nat, sid: nat, verb: string, g: string, n: nat, m: string)
    requires IsRun(r) && j < |r.ev| && Runs(r, j, sid) && Verb(verb) && r.ev[j].sent == verb + CRLF
    requires MayRead(r.cfg, Runner(r, j, sid), g) && Runner(r, j, sid).article == Some(n)
    requires Row(r.ws[j].store.db, m, g, n)
    ensures r.replies[j] == Text(Shown(r.ws[j].store, Lower(verb[0]), n, m))
  {
    AnswerAt(r, j, sid, verb, None, g);
    ReachableIsSound(r, j);
    MessageAtIs(r.ws[j].store.db, g, n, m);
    AskedBare(r.ws[j].store, Runner(r, j, sid), Lower(verb[0]), g, n, r.cfg.affinity);
  }

  /** A session picks article n by its number or its id, and its next command is a bare one: it is
      answered with the article that has the number n at that moment, whatever others do in between. */
  lemma BareShowsThePicked(r: Run, i: nat, j: nat, sid: nat, verb: string, arg: string, next: string, g: string,
                           n: nat, m: string)
    requires IsRun(r) && i < j < |r.ev| && PicksAt(r, i, sid, verb, arg, g, n) && Runs(r, j, sid)
    requires forall l :: i < l < j ==> !Turns(r, l, sid)
    requires Verb(next) && r.ev[j].sent == next + CRLF && Row(r.ws[j].store.db, m, g, n)
    ensures r.replies[j] == Text(Shown(r.ws[j].store, Lower(next[0]), n, m))
  {
    StillPicked(r, i, j, sid, verb, arg, g, n);
    BareAt(r, j, sid, next, g, n, m);
  }
}
