/** GROUP, LISTGROUP and XOVER as clients send them, from the bytes to the reply and the new session;
    and the lines that are turned away. */
module ClientCommands {
  import opened CStrings
  import opened Tables
  import opened Delivery
  import opened Post
  import opened PostFacts
  import opened Overview
  import LineLookup
  import Receive
  import opened Reading
  import opened Tokenizer
  import opened CommandReader
  import opened Session
  import opened SessionFacts
  import opened Keywords
  import opened CommandLines

  // ---------- 480 and 483 ----------

  lemma AnswerCodes(rules: Rules, st: Store, p: Policy, env: Env)
    ensures var answer := Posted(rules, st, p, env).1;
            answer.Killed? || answer.code == 240 || answer.code == 411 || answer.code == 441
  {
    match Screen(rules, st.db, env)
    case Refused(_) => RefusedCodes(rules, st.db, env);
    case Passed(header, body, ngstrp) => PassedAlways(rules, st.db, env);
  }

  lemma RefusedCodes(rules: Rules, db: Db, env: Env)
    requires Screen(rules, db, env).Refused?
    ensures var answer := Screen(rules, db, env).outcome;
            answer.Killed? || answer.code == 411 || answer.code == 441
  {
    var got := Receive.Outcome([], env.chunks, rules.maxPostSize);
    if got.Complete? && Receive.SplitArticle(got.text).Parts? {
      var ngstrp := LineLookup.LineValue(Receive.SplitArticle(got.text).header, "Newsgroups:");
      if ngstrp.Some? { NameErrorCodes(db, Tokens(ngstrp.value)); }
    }
  }

  lemma HandlersRefuseNobody(cfg: Config, st: Store, c: Conn, cmd: Command, line: string, io: Io)
    ensures Handle(cfg, st, c, cmd, line, io).2 != Line(480) && Handle(cfg, st, c, cmd, line, io).2 != Line(483)
  {
    if cmd == PostArticle {
      AnswerCodes(cfg.rules, st, PolicyOf(cfg, c), io.post);
      PostReplies(cfg, st, c, line, io);
    } else {
      OthersRefuseNobody(cfg, st, c, cmd, line, io);
    }
  }

  lemma OthersRefuseNobody(cfg: Config, st: Store, c: Conn, cmd: Command, line: string, io: Io)
    requires cmd != PostArticle
    ensures Handle(cfg, st, c, cmd, line, io).2 != Line(480) && Handle(cfg, st, c, cmd, line, io).2 != Line(483)
  {
  }

  /** The keywords that need no login. */
  predicate OpenLine(line: string) {
    Starts(line, "quit") || Starts(line, "authinfo user ") || Starts(line, "authinfo pass ") || Starts(line, "starttls")
  }

  /** Without a login where one is needed, every other line is answered 480. */
  lemma LoginRequired(cfg: Config, st: Store, c: Conn, line: string, io: Io)
    ensures DoCommand(cfg, st, c, line, io).2 == Line(480) <==> cfg.useAuth && !c.auth && !OpenLine(line)
    ensures cfg.useAuth && !c.auth && !OpenLine(line) ==> DoCommand(cfg, st, c, line, io) == (st, c, Line(480))
  {
    var cmd := Reached(cfg, c, line);
    if cmd.Some? { HandlersRefuseNobody(cfg, st, c, cmd.value, line, io); }
    if cfg.useAuth && !c.auth { WithoutLogin(line); } else { NothingRefused(line); }
  }

  /** The keywords that mandatory TLS withholds on a plain connection. */
  predicate TlsLine(line: string) {
    || Starts(line, "list newsgroups") || Starts(line, "listgroup") || Starts(line, "list") || Starts(line, "xgtitle")
    || Starts(line, "group") || Starts(line, "xover") || Starts(line, "xhdr") || Starts(line, "article")
    || Starts(line, "head") || Starts(line, "body") || Starts(line, "stat") || Starts(line, "mode reader")
    || Starts(line, "post")
  }

  lemma NeedsTlsIff(line: string)
    ensures NeedsTls(Classify(line, true))
            <==> Starts(line, "authinfo user ") || Starts(line, "authinfo pass ")
                 || (TlsLine(line) && !Starts(line, "list overview.fmt"))
    ensures NeedsTls(Classify(line, false)) <==> Starts(line, "authinfo user ") || Starts(line, "authinfo pass ")
  {
    EveryKeyword(line);
    ListAndArticle(line);
    EveryOtherKeyword(line);
    WithoutLogin(line);
  }

  /** Under mandatory TLS, on a plain connection: AUTHINFO, and after a login all commands but LIST
      OVERVIEW.FMT, HELP, DATE, CAPABILITIES, NEWNEWS, STARTTLS and QUIT, are answered 483. */
  lemma TlsRequired(cfg: Config, st: Store, c: Conn, line: string, io: Io)
    ensures DoCommand(cfg, st, c, line, io).2 == Line(483)
            <==> cfg.tlsMandatory && !c.tls
                 && (Starts(line, "authinfo user ") || Starts(line, "authinfo pass ")
                     || ((c.auth || !cfg.useAuth) && TlsLine(line) && !Starts(line, "list overview.fmt")))
    ensures DoCommand(cfg, st, c, line, io).2 == Line(483) ==> DoCommand(cfg, st, c, line, io) == (st, c, Line(483))
  {
    NeedsTlsIff(line);
    var cmd := Reached(cfg, c, line);
    if cmd.Some? { HandlersRefuseNobody(cfg, st, c, cmd.value, line, io); }
  }

  // ---------- From the bytes to the handler ----------

  /** The connection is ready for a command that needs a login and TLS where these are mandatory. */
  predicate Served(cfg: Config, c: Conn) {
    c.alive && !c.switchTls && (c.auth || !cfg.useAuth) && (c.tls || !cfg.tlsMandatory)
  }

  lemma Handled(cfg: Config, st: Store, c: Conn, sent: string, line: string, cmd: Command, io: Io)
    requires Served(cfg, c) && CommandLine(sent) == Some(line) && Classify(line, true) == cmd && cmd != AuthRequired
    ensures Serve(cfg, st, c, sent, io) == Handle(cfg, st, c, cmd, line, io)
  {
    assert Reached(cfg, c, line) == Some(cmd);
  }

  /** A keyword in any letter case, a plain argument, CRLF; no longer than the buffer. */
  predicate IsSent(sent: string, v: string, keyword: string, arg: string) {
    Letters(keyword) && Typed(v, keyword) && PlainArg(arg) && sent == v + " " + arg + CRLF && |sent| <= MAX_CMDLEN
  }

  /** The keyword alone. */
  predicate IsSentBare(sent: string, v: string, keyword: string) {
    Letters(keyword) && Typed(v, keyword) && sent == v + CRLF && |sent| <= MAX_CMDLEN
  }

  lemma LineOfSent(sent: string, v: string, keyword: string, arg: string)
    requires IsSent(sent, v, keyword, arg)
    ensures CommandLine(sent) == Some(v + " " + arg) && NthWord(v + " " + arg, 1) == Some(arg)
    ensures Starts(v + " " + arg, keyword)
  {
    TypedIsPlain(v, keyword);
    ArgArrives(v, arg);
    TypedStarts(v, keyword, " " + arg);
    assert v + " " + arg == v + (" " + arg);
  }

  lemma LineOfBare(sent: string, v: string, keyword: string)
    requires IsSentBare(sent, v, keyword)
    ensures CommandLine(sent) == Some(v) && NthWord(v, 1) == None && Starts(v, keyword)
  {
    TypedIsPlain(v, keyword);
    BareArrives(v);
    TypedStarts(v, keyword, []);
    assert v + [] == v;
  }

  // ---------- GROUP ----------

  lemma GroupHandled(cfg: Config, st: Store, c: Conn, sent: string, v: string, g: string, io: Io)
    requires Served(cfg, c) && IsSent(sent, v, "group", g)
    ensures var (c', r) := GroupCmd(cfg, st.db, c, Some(g)); Serve(cfg, st, c, sent, io) == (st, c', r)
  {
    LineOfSent(sent, v, "group", g);
    SelectGroupWord(v + " " + g);
    Handled(cfg, st, c, sent, v + " " + g, SelectGroup, io);
  }

  /** "group g": the true figures and the first article selected; 411 and nothing changed for a group
      that is missing or closed to the user. */
  lemma GroupSent(cfg: Config, st: Store, c: Conn, sent: string, v: string, g: string, io: Io)
    requires Served(cfg, c) && IsSent(sent, v, "group", g) && Numbered(st.db)
    ensures var (st', c', r) := Serve(cfg, st, c, sent, io);
            && st' == st
            && if g !in st.db.groups || (cfg.useAuth && cfg.useAcl && !Access(st.db, c.user, g)) then
                 c' == c && r == Line(411)
               else
                 var high := st.db.groups[g].high;
                 && c' == c.(group := Some(g), article := if high == 0 then None else Some(1))
                 && r == GroupLine(|RowsOf(st.db, g)|, if high == 0 then 0 else 1, high, g)
  {
    GroupHandled(cfg, st, c, sent, v, g, io);
    if g !in st.db.groups || (cfg.useAuth && cfg.useAcl && !Access(st.db, c.user, g)) {
      GroupDenied(cfg, st.db, c, g);
    } else {
      GroupReplyIsExact(cfg, st.db, c, g);
      GroupFiguresAreExact(st.db, g);
    }
  }

  // ---------- LISTGROUP ----------

  lemma ListGroupHandled(cfg: Config, st: Store, c: Conn, sent: string, v: string, g: string, io: Io)
    requires Served(cfg, c) && IsSent(sent, v, "listgroup", g)
    ensures var (c', r) := ListGroupCmd(cfg, st.db, c, Some(g)); Serve(cfg, st, c, sent, io) == (st, c', r)
  {
    LineOfSent(sent, v, "listgroup", g);
    ListGroupWord(v + " " + g);
    Handled(cfg, st, c, sent, v + " " + g, ListGroup, io);
  }

  lemma BareListGroupHandled(cfg: Config, st: Store, c: Conn, sent: string, v: string, io: Io)
    requires Served(cfg, c) && IsSentBare(sent, v, "listgroup")
    ensures var (c', r) := ListGroupCmd(cfg, st.db, c, None); Serve(cfg, st, c, sent, io) == (st, c', r)
  {
    LineOfBare(sent, v, "listgroup");
    ListGroupWord(v);
    Handled(cfg, st, c, sent, v, ListGroup, io);
  }

  /** "listgroup g": the numbers 1 to high and the pointer on the last, or on none after a found article;
      411 for a group that is missing, or closed, which selects it all the same. */
  lemma ListGroupSent(cfg: Config, st: Store, c: Conn, sent: string, v: string, g: string, io: Io)
    requires Served(cfg, c) && IsSent(sent, v, "listgroup", g) && Numbered(st.db)
    ensures var (st', c', r) := Serve(cfg, st, c, sent, io);
            && st' == st
            && if g !in st.db.groups then c' == c && r == Line(411)
               else if cfg.useAuth && cfg.useAcl && !Access(st.db, c.user, g) then
                 c' == c.(group := Some(g)) && r == Line(411)
               else
                 var high := st.db.groups[g].high;
                 && c' == c.(group := Some(g), article := if c.foundArticle || high == 0 then None else Some(high))
                 && r == Numbers(Ascending(1, high))
  {
    ListGroupHandled(cfg, st, c, sent, v, g, io);
    if g !in st.db.groups {
      ListGroupDenied(cfg, st.db, c, g);
    } else if cfg.useAuth && cfg.useAcl && !Access(st.db, c.user, g) {
      DeniedStillSelects(cfg, st.db, c, g);
    } else {
      ListGroupReplyIsExact(cfg, st.db, c, Some(g), g);
    }
  }

  lemma NothingToList(db: Db, g: string)
    requires RowsSound(db) && g !in db.groups
    ensures Sorted(NumbersOf(db, g)) == []
  {
    forall n | n in NumbersOf(db, g) ensures false {
      NumberInRange(db, g, n);
    }
    assert NumbersOf(db, g) == {};
  }

  /** "listgroup" alone: the same for the selected group, with nothing to list when it has been
      deleted; 412 without one, and 411 and nothing changed where the user has no access. */
  lemma BareListGroupSent(cfg: Config, st: Store, c: Conn, sent: string, v: string, io: Io)
    requires Served(cfg, c) && IsSentBare(sent, v, "listgroup") && Numbered(st.db)
    ensures var (st', c', r) := Serve(cfg, st, c, sent, io);
            && st' == st
            && if c.group == None then c' == c && r == Line(412)
               else if cfg.useAuth && cfg.useAcl && !Access(st.db, c.user, c.group.value) then c' == c && r == Line(411)
               else if c.group.value !in st.db.groups then c' == c.(article := None) && r == Numbers([])
               else
                 var high := st.db.groups[c.group.value].high;
                 && c' == c.(article := if c.foundArticle || high == 0 then None else Some(high))
                 && r == Numbers(Ascending(1, high))
  {
    BareListGroupHandled(cfg, st, c, sent, v, io);
    if c.group.Some? {
      ListGroupDenied(cfg, st.db, c, c.group.value);
      if c.group.value !in st.db.groups {
        NothingToList(st.db, c.group.value);
      } else if Permitted(st.db, PolicyOf(cfg, c), c.group.value) {
        ListGroupReplyIsExact(cfg, st.db, c, None, c.group.value);
      }
    } else {
      ListGroupDenied(cfg, st.db, c, []);
    }
  }

  // ---------- XOVER ----------

  lemma XoverHandled(cfg: Config, st: Store, c: Conn, sent: string, v: string, text: string, io: Io)
    requires Served(cfg, c) && IsSent(sent, v, "xover", text)
    ensures Serve(cfg, st, c, sent, io) == (st, c, XoverCmd(st.db, c, Some(text), io.uninitialised))
  {
    LineOfSent(sent, v, "xover", text);
    XoverWord(v + " " + text);
    Handled(cfg, st, c, sent, v + " " + text, Xover, io);
  }

  lemma BareXoverHandled(cfg: Config, st: Store, c: Conn, sent: string, v: string, io: Io)
    requires Served(cfg, c) && IsSentBare(sent, v, "xover")
    ensures Serve(cfg, st, c, sent, io) == (st, c, XoverCmd(st.db, c, None, io.uninitialised))
  {
    LineOfBare(sent, v, "xover");
    XoverWord(v);
    Handled(cfg, st, c, sent, v, Xover, io);
  }

  /** "a", "a-" or "a-b". */
  predicate RangeText(text: string, a: nat, b: nat) {
    text == Dec(a) || text == Dec(a) + "-" || text == Dec(a) + "-" + Dec(b)
  }

  lemma RangeIsPlain(text: string, a: nat, b: nat)
    requires RangeText(text, a, b)
    ensures PlainArg(text)
  {
    assert forall i :: 0 <= i < |text| ==> IsDigit(text[i]) || text[i] == '-';
  }

  /** The line of an article carries the fields of its posting. */
  predicate LineOf(item: Item, n: nat, m: string, p: Posting) {
    item.num == n && item.msgid == m && item.subject == p.subject && item.author == p.author && item.date == p.date
    && item.lines == p.lines
  }

  /** Every line sent is that of the article with its number. */
  ghost predicate TrueLines(db: Db, g: string, items: set<Item>) {
    forall item :: item in items ==>
      Row(db, item.msgid, g, item.num) && item.msgid in db.postings
      && LineOf(item, item.num, item.msgid, db.postings[item.msgid])
  }

  lemma LinesAreTrue(db: Db, c: Conn, g: string, arg: Option<string>, uninitialised: nat)
    requires c.group == Some(g)
    ensures var r := XoverCmd(db, c, arg, uninitialised); r.OverviewLines? ==> TrueLines(db, g, r.items)
  {
  }

  /** "xover" with a range: one line, of its own article, for each existing number it names, and 420 when
      it starts behind the last. */
  lemma XoverSent(cfg: Config, st: Store, c: Conn, sent: string, v: string, text: string, g: string, a: nat, b: nat,
                  io: Io)
    requires Served(cfg, c) && IsSent(sent, v, "xover", text) && Numbered(st.db)
    requires RangeText(text, a, b) && c.group == Some(g) && g in st.db.groups && 1 <= a <= b < 0x8000_0000
    ensures var high, (st', c', r) := st.db.groups[g].high, Serve(cfg, st, c, sent, io);
            && st' == st && c' == c
            && if a > high then r == Line(420)
               else
                 var to := if text == Dec(a) + "-" then high else if text == Dec(a) then a else b;
                 && r.OverviewLines? && TrueLines(st.db, g, r.items)
                 && (set item | item in r.items :: item.num) == Interval(a, if to <= high then to else high)
  {
    XoverHandled(cfg, st, c, sent, v, text, io);
    XoverReplyIsExact(st.db, c, g, a, b, text, io.uninitialised);
    LinesAreTrue(st.db, c, g, Some(text), io.uninitialised);
  }

  /** "xover" alone: the line of the current article; 412 without a group, 420 without an article. */
  lemma BareXoverSent(cfg: Config, st: Store, c: Conn, sent: string, v: string, io: Io)
    requires Served(cfg, c) && IsSentBare(sent, v, "xover") && Numbered(st.db) && PointerSound(st.db, c)
    ensures var (st', c', r) := Serve(cfg, st, c, sent, io);
            && st' == st && c' == c
            && (c.group == None ==> r == Line(412))
            && (c.group.Some? && c.article == None ==> r == Line(420))
            && (c.article.Some? ==>
                  && r.OverviewLines? && TrueLines(st.db, c.group.value, r.items)
                  && (set item | item in r.items :: item.num) == {c.article.value} && |r.items| == 1)
  {
    BareXoverHandled(cfg, st, c, sent, v, io);
    if c.article.Some? {
      CurrentLine(st.db, c, io.uninitialised);
    }
  }

  lemma OneRow(db: Db, g: string, n: nat, m: string)
    requires NoNumberTwice(db) && Row(db, m, g, n)
    ensures Articles(db, g, n, Some(n as int)) == {Key(m, g)}
  {
    var rows := Articles(db, g, n, Some(n as int));
    forall k | k in rows ensures k == Key(m, g) {
      assert Row(db, k.msgid, g, n);
    }
    assert Key(m, g) in rows;
  }

  lemma OneItem(db: Db, g: string, n: nat, m: string)
    requires Row(db, m, g, n) && m in db.postings
    ensures Items(db, {Key(m, g)}) == {ItemOf(n, m, db.postings[m])}
  {
    var item := ItemOf(n, m, db.postings[m]);
    assert Key(m, g) in {Key(m, g)};
    assert item in Items(db, {Key(m, g)});
  }

  lemma OneSelected(db: Db, g: string, n: nat, high: nat)
    requires n <= high <= MAX_HIGH
    ensures Selected(db, g, (U32(n), U32(n)), high) == Some(Articles(db, g, n, Some(n as int)))
  {
  }

  lemma CurrentSelected(db: Db, c: Conn, uninitialised: nat)
    requires Numbered(db) && PointerSound(db, c) && c.article.Some?
    ensures XoverCmd(db, c, None, uninitialised)
            == OverviewLines(Items(db, Articles(db, c.group.value, c.article.value, Some(c.article.value as int))))
  {
    OneSelected(db, c.group.value, c.article.value, db.groups[c.group.value].high);
  }

  lemma CurrentLine(db: Db, c: Conn, uninitialised: nat)
    requires Numbered(db) && PointerSound(db, c) && c.article.Some?
    ensures var r := XoverCmd(db, c, None, uninitialised);
            && r.OverviewLines? && TrueLines(db, c.group.value, r.items)
            && (set item | item in r.items :: item.num) == {c.article.value} && |r.items| == 1
  {
    var g, n := c.group.value, c.article.value;
    PointerNamesOne(db, c);
    var m := MessageAt(db, g, n).value;
    CurrentSelected(db, c, uninitialised);
    OneRow(db, g, n, m);
    OneItem(db, g, n, m);
    LinesAreTrue(db, c, g, None, uninitialised);
    var item := ItemOf(n, m, db.postings[m]);
    assert item in {item} && item.num == n;
  }
}
