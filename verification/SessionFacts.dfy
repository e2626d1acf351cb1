/** What one command keeps of a session: the article pointer, the authentication state and the
    TLS state. */
module SessionFacts {
  import opened CStrings
  import opened Tables
  import opened Delivery
  import opened Post
  import opened PostFacts
  import opened Overview
  import opened Reading
  import opened Tokenizer
  import opened CommandReader
  import opened Session

  /** The connection once a pending switch to TLS has been made. */
  function Ready(c: Conn, io: Io): Conn {
    if c.switchTls then SwitchTls(c, io.tlsOk) else c
  }

  /** The handler reached by this turn's line, if any. */
  function TurnReaches(cfg: Config, c: Conn, sent: string): Option<Command> {
    var line := CommandLine(sent);
    if line.None? then None else Reached(cfg, c, line.value)
  }

  // ---------- What a handler may touch ----------

  /** Only liveness, the selected group, the selected article and found_article may differ. */
  predicate SameLogin(c: Conn, c': Conn) {
    c'.auth == c.auth && c'.user == c.user && c'.starttls == c.starttls && c'.tls == c.tls
    && c'.switchTls == c.switchTls
  }

  lemma GroupKeepsLogin(cfg: Config, db: Db, c: Conn, arg: Option<string>)
    ensures SameLogin(c, GroupCmd(cfg, db, c, arg).0)
  {
  }

  lemma ListedKeepsLogin(db: Db, c: Conn, g: string)
    ensures SameLogin(c, Listed(db, c, g).0)
  {
  }

  lemma ListGroupKeepsLogin(cfg: Config, db: Db, c: Conn, arg: Option<string>)
    ensures SameLogin(c, ListGroupCmd(cfg, db, c, arg).0)
  {
    match arg
    case None => if c.group.Some? { ListedKeepsLogin(db, c, c.group.value); }
    case Some(g) => ListedKeepsLogin(db, c.(group := Some(g)), g);
  }

  lemma ArticleKeepsLogin(st: Store, c: Conn, letter: char, arg: Option<string>, affinity: Affinity)
    ensures SameLogin(c, ArticleCmd(st, c, letter, arg, affinity).0)
  {
  }

  /** AUTHINFO and STARTTLS are the only handlers that touch the login and TLS fields. */
  lemma OthersKeepLogin(cfg: Config, st: Store, c: Conn, cmd: Command, line: string, io: Io)
    requires cmd != AuthinfoUser && cmd != AuthinfoPass && cmd != StartTls
    ensures SameLogin(c, Handle(cfg, st, c, cmd, line, io).1)
  {
    match cmd
    case SelectGroup => GroupKeepsLogin(cfg, st.db, c, NthWord(line, 1));
    case ListGroup => ListGroupKeepsLogin(cfg, st.db, c, NthWord(line, 1));
    case Article => ArticleKeepsLogin(st, c, FirstLetter(line), NthWord(line, 1), cfg.affinity);
    case _ =>
  }

  lemma OnlyPostStores(cfg: Config, st: Store, c: Conn, cmd: Command, line: string, io: Io)
    requires cmd != PostArticle
    ensures Handle(cfg, st, c, cmd, line, io).0 == st
  {
  }

  /** Only POST changes the store from within a session. */
  lemma ServeStore(cfg: Config, st: Store, c: Conn, sent: string, io: Io)
    ensures var st' := Serve(cfg, st, c, sent, io).0;
            st' == st || st' == Posted(cfg.rules, st, PolicyOf(cfg, Ready(c, io)), io.post).0
  {
    var cmd := TurnReaches(cfg, Ready(c, io), sent);
    if cmd.Some? && cmd != Some(PostArticle) {
      OnlyPostStores(cfg, st, Ready(c, io), cmd.value, CommandLine(sent).value, io);
    }
  }

  lemma ServeOnlyGrows(cfg: Config, st: Store, c: Conn, sent: string, io: Io)
    ensures OnlyGrows(st.db, Serve(cfg, st, c, sent, io).0.db)
  {
    ServeStore(cfg, st, c, sent, io);
    PostOnlyGrows(cfg.rules, st, PolicyOf(cfg, Ready(c, io)), io.post);
  }

  lemma ServeCounts(cfg: Config, st: Store, c: Conn, sent: string, io: Io)
    ensures var n := Serve(cfg, st, c, sent, io).0.counter; n == st.counter || n == st.counter + 1
  {
    ServeStore(cfg, st, c, sent, io);
    PostCounts(cfg.rules, st, PolicyOf(cfg, Ready(c, io)), io.post);
  }

  /** What POST keeps, every command keeps. */
  lemma ServeKeepsStore(cfg: Config, st: Store, c: Conn, sent: string, io: Io)
    requires StoreInv(st)
    ensures StoreInv(Serve(cfg, st, c, sent, io).0) && OnlyLoses(st, Serve(cfg, st, c, sent, io).0)
  {
    ServeStore(cfg, st, c, sent, io);
    PostKeeps(cfg.rules, st, PolicyOf(cfg, Ready(c, io)), io.post);
  }

  // ---------- Exact answers ----------

  /** The figures of a 211 reply, computed from `high` alone, are the true count, minimum and
      maximum of the group's articles, and the article selected is that minimum. */
  lemma GroupReplyIsExact(cfg: Config, db: Db, c: Conn, g: string)
    requires Numbered(db) && g in db.groups && Permitted(db, PolicyOf(cfg, c), g)
    ensures var (c', r) := GroupCmd(cfg, db, c, Some(g));
            && r.GroupLine? && r.name == g && c' == c.(group := Some(g), article := c'.article)
            && r.estimated == |RowsOf(db, g)|
            && (RowsOf(db, g) == {} ==> r.first == 0 && r.last == 0 && c'.article == None)
            && (RowsOf(db, g) != {} ==>
                  && r.first in NumbersOf(db, g) && r.last in NumbersOf(db, g) && c'.article == Some(r.first)
                  && forall n :: n in NumbersOf(db, g) ==> r.first <= n <= r.last)
  {
    GroupFiguresAreExact(db, g);
    if db.groups[g].high > 0 {
      assert 1 in NumbersOf(db, g) && Least(NumbersOf(db, g)) == 1;
    }
  }

  /** GROUP without a name is answered 501; with the name of a group that is missing, or closed to the
      session's user, 411; and the session stays as it was. */
  lemma GroupDenied(cfg: Config, db: Db, c: Conn, g: string)
    ensures GroupCmd(cfg, db, c, None) == (c, Line(501))
    ensures g !in db.groups || (cfg.useAuth && cfg.useAcl && !Access(db, c.user, g)) ==>
              GroupCmd(cfg, db, c, Some(g)) == (c, Line(411))
  {
  }

  /** LISTGROUP: bare, it needs a selected group (412) that the user has access to (411); named, one
      that exists (411); the session stays as it was.  The one denial that does not leave it so is
      DeniedStillSelects. */
  lemma ListGroupDenied(cfg: Config, db: Db, c: Conn, g: string)
    ensures c.group == None ==> ListGroupCmd(cfg, db, c, None) == (c, Line(412))
    ensures c.group == Some(g) && cfg.useAuth && cfg.useAcl && !Access(db, c.user, g) ==>
              ListGroupCmd(cfg, db, c, None) == (c, Line(411))
    ensures g !in db.groups ==> ListGroupCmd(cfg, db, c, Some(g)) == (c, Line(411))
  {
  }

  lemma {:induction false} LastOfAscending(from: nat, to: nat)
    requires from <= to
    ensures Ascending(from, to) != [] && Ascending(from, to)[|Ascending(from, to)| - 1] == to
    decreases if from <= to then to + 1 - from else 0
  {
    if from < to {
      LastOfAscending(from + 1, to);
    }
  }

  /** LISTGROUP means this group: by name, or bare when it is the selected one. */
  predicate Lists(c: Conn, arg: Option<string>, g: string) {
    arg == Some(g) || (arg == None && c.group == Some(g))
  }

  /** LISTGROUP lists 1, 2, ..., high and leaves the pointer on the last of them, or on none when
      the latest ARTICLE command had found its article. */
  lemma ListGroupReplyIsExact(cfg: Config, db: Db, c: Conn, arg: Option<string>, g: string)
    requires Numbered(db) && g in db.groups && Permitted(db, PolicyOf(cfg, c), g) && Lists(c, arg, g)
    ensures var high := db.groups[g].high;
            ListGroupCmd(cfg, db, c, arg)
            == (c.(group := Some(g), article := if c.foundArticle || high == 0 then None else Some(high)),
                Numbers(Ascending(1, high)))
  {
    ListingIsAscending(db, g);
    if db.groups[g].high > 0 {
      LastOfAscending(1, db.groups[g].high);
    }
  }

  /** Section 6.1.2 of RFC 3977 wants the first article selected.  It is, exactly when the group is
      empty, or has one article and the latest ARTICLE command found nothing. */
  lemma ListGroupSelectsFirstIff(cfg: Config, db: Db, c: Conn, arg: Option<string>, g: string)
    requires Numbered(db) && g in db.groups && Permitted(db, PolicyOf(cfg, c), g) && Lists(c, arg, g)
    ensures ListGroupCmd(cfg, db, c, arg).0.article == FirstNumber(db, g)
            <==> db.groups[g].high == 0 || (db.groups[g].high == 1 && !c.foundArticle)
  {
    ListGroupReplyIsExact(cfg, db, c, arg, g);
    GroupFiguresAreExact(db, g);
  }

  /** XOVER with "a", "a-" or "a-b" sends one line for each existing number the range names, and 420
      when a is beyond the last article. */
  lemma XoverReplyIsExact(db: Db, c: Conn, g: string, a: nat, b: nat, text: string, uninitialised: nat)
    requires Numbered(db) && g in db.groups && c.group == Some(g) && 1 <= a <= b < 0x8000_0000
    requires text == Dec(a) || text == Dec(a) + "-" || text == Dec(a) + "-" + Dec(b)
    ensures var high, r := db.groups[g].high, XoverCmd(db, c, Some(text), uninitialised);
            var to := if text == Dec(a) + "-" then high else if text == Dec(a) then a else b;
            if a > high then r == Line(420)
            else
              && r.OverviewLines?
              && (set item | item in r.items :: item.num) == Interval(a, if to <= high then to else high)
  {
    var high := db.groups[g].high;
    RangesMeanWhatTheySay(db, g, a, b);
    FormsDiffer(a, b);
    if a <= high {
      var to := if text == Dec(a) + "-" then high else if text == Dec(a) then a else b;
      ArticlesUpToHigh(db, g, a, high);
      var rows := Articles(db, g, a, Some(to));
      NoRowIsLost(db, rows);
      NumbersOfRange(db, g, a, to);
    }
  }

  /** XOVER needs a group, and without a range an article. */
  lemma XoverRefused(db: Db, c: Conn, arg: Option<string>, uninitialised: nat)
    ensures c.group == None ==> XoverCmd(db, c, arg, uninitialised) == Line(412)
    ensures c.group.Some? && arg == None && c.article == None ==> XoverCmd(db, c, arg, uninitialised) == Line(420)
  {
  }

  lemma FormsDiffer(a: nat, b: nat)
    ensures Dec(a) + "-" + Dec(b) != Dec(a) + "-"
  {
    assert |Dec(b)| > 0;
  }

  lemma NumbersOfRange(db: Db, g: string, a: nat, to: nat)
    requires Numbered(db) && g in db.groups && 1 <= a
    ensures var rows := Articles(db, g, a, Some(to)); var high := db.groups[g].high;
            (set k | k in rows && k in db.ngposts :: db.ngposts[k]) == Interval(a, if to <= high then to else high)
  {
    var rows, high := Articles(db, g, a, Some(to)), db.groups[g].high;
    var wanted := Interval(a, if to <= high then to else high);
    forall n | n in wanted
      ensures n in set k | k in rows && k in db.ngposts :: db.ngposts[k]
    {
      assert Has(db, g, n);
      var m :| Row(db, m, g, n);
      assert Key(m, g) in rows;
    }
  }

  // ---------- The selected group ----------

  /** GROUP takes a group that exists and is open to the user at that moment, LISTGROUP any that exists. */
  predicate Selects(cfg: Config, db: Db, c: Conn, cmd: Option<Command>, arg: Option<string>, g: string) {
    && arg == Some(g) && g in db.groups
    && (cmd == Some(ListGroup)
        || (cmd == Some(SelectGroup) && (cfg.useAuth && cfg.useAcl ==> Access(db, c.user, g))))
  }

  lemma GroupOfCommand(cfg: Config, st: Store, c: Conn, cmd: Command, line: string, io: Io)
    ensures var c' := Handle(cfg, st, c, cmd, line, io).1;
            c'.group.Some? ==>
              c'.group == c.group || Selects(cfg, st.db, c, Some(cmd), NthWord(line, 1), c'.group.value)
  {
    match cmd
    case SelectGroup =>
    case ListGroup =>
    case Article => ArticleKeepsGroup(st, c, FirstLetter(line), NthWord(line, 1), cfg.affinity);
    case PostArticle =>
    case _ => OthersKeepPlace(cfg, st, c, cmd, line, io);
  }

  lemma ArticleKeepsGroup(st: Store, c: Conn, letter: char, arg: Option<string>, affinity: Affinity)
    ensures ArticleCmd(st, c, letter, arg, affinity).0.group == c.group
  {
  }

  /** A group is selected after a turn only if it was before, or by one of these two. */
  lemma GroupOfTurn(cfg: Config, st: Store, c: Conn, sent: string, io: Io)
    ensures var c1, c' := Ready(c, io), Serve(cfg, st, c, sent, io).1;
            c'.group.Some? ==>
              c'.group == c.group
              || (c1.alive && CommandLine(sent).Some?
                  && Selects(cfg, st.db, c1, TurnReaches(cfg, c1, sent), NthWord(CommandLine(sent).value, 1),
                             c'.group.value))
  {
    var c1 := Ready(c, io);
    var cmd := TurnReaches(cfg, c1, sent);
    if c1.alive && cmd.Some? {
      GroupOfCommand(cfg, st, c1, cmd.value, CommandLine(sent).value, io);
    }
  }

  // ---------- The current article ----------

  /** selected_article is NULL or the number of an article of selected_group. */
  ghost predicate PointerSound(db: Db, c: Conn) {
    c.article.Some? ==>
      c.group.Some? && c.group.value in db.groups && 1 <= c.article.value <= db.groups[c.group.value].high
  }

  /** Under the numbering invariant that number names exactly one message. */
  lemma PointerNamesOne(db: Db, c: Conn)
    requires Numbered(db) && PointerSound(db, c) && c.article.Some?
    ensures var m := MessageAt(db, c.group.value, c.article.value);
            m.Some? && forall x :: Row(db, x, c.group.value, c.article.value) <==> m == Some(x)
  {
    assert Has(db, c.group.value, c.article.value);
    forall x | Row(db, x, c.group.value, c.article.value)
      ensures MessageAt(db, c.group.value, c.article.value) == Some(x)
    {
      MessageAtIs(db, c.group.value, c.article.value, x);
    }
  }

  lemma NumberInRange(db: Db, g: string, n: nat)
    requires RowsSound(db) && n in NumbersOf(db, g)
    ensures g in db.groups && 1 <= n <= db.groups[g].high
  {
    var k :| k in db.ngposts && k.ng == g && db.ngposts[k] == n;
  }

  lemma GroupKeepsPointer(cfg: Config, db: Db, c: Conn, arg: Option<string>)
    requires RowsSound(db) && PointerSound(db, c)
    ensures PointerSound(db, GroupCmd(cfg, db, c, arg).0)
  {
    if arg.Some? && FirstNumber(db, arg.value).Some? {
      NumberInRange(db, arg.value, FirstNumber(db, arg.value).value);
    }
  }

  lemma ListingKeepsPointer(db: Db, c: Conn, g: string)
    requires RowsSound(db) && c.group == Some(g)
    ensures PointerSound(db, Listed(db, c, g).0)
  {
    var nums := Sorted(NumbersOf(db, g));
    SortedHolds(NumbersOf(db, g));
    if nums != [] {
      assert nums[|nums| - 1] in nums;
      NumberInRange(db, g, nums[|nums| - 1]);
    }
  }

  /** A LISTGROUP that names an existing group the session may not read, while an article is selected
      whose number that group does not have. */
  predicate MixesUp(cfg: Config, db: Db, c: Conn, cmd: Command, arg: Option<string>) {
    && cmd == ListGroup && arg.Some? && arg.value in db.groups
    && !Permitted(db, PolicyOf(cfg, c), arg.value)
    && c.article.Some? && c.article.value > db.groups[arg.value].high
  }

  lemma ListGroupKeepsPointer(cfg: Config, db: Db, c: Conn, arg: Option<string>)
    requires RowsSound(db) && PointerSound(db, c)
    ensures PointerSound(db, ListGroupCmd(cfg, db, c, arg).0) <==> !MixesUp(cfg, db, c, ListGroup, arg)
  {
    match arg
    case None => if c.group.Some? { ListingKeepsPointer(db, c, c.group.value); }
    case Some(g) => ListingKeepsPointer(db, c.(group := Some(g)), g);
  }

  lemma ArticleKeepsPointer(st: Store, c: Conn, letter: char, arg: Option<string>, affinity: Affinity)
    requires RowsSound(st.db) && PointerSound(st.db, c)
    ensures PointerSound(st.db, ArticleCmd(st, c, letter, arg, affinity).0)
  {
    var c1, c' := c.(foundArticle := false), ArticleCmd(st, c, letter, arg, affinity).0;
    if c.group.Some? {
      var w := Wanted(st.db, c.article, c.group.value, arg, affinity);
      if w.Some? && w.value.Some? {
        var k := Key(w.value.value, c.group.value);
        assert c' == c1.(article := Some(st.db.ngposts[k]), foundArticle := true);
      } else {
        assert c' == c1;
      }
    }
  }

  /** Commands that leave the tables, the group and the pointer alone. */
  lemma OthersKeepPlace(cfg: Config, st: Store, c: Conn, cmd: Command, line: string, io: Io)
    requires cmd !in {SelectGroup, ListGroup, Article, PostArticle}
    ensures var (st', c', _) := Handle(cfg, st, c, cmd, line, io);
            st' == st && c'.group == c.group && c'.article == c.article
  {
  }

  lemma PostKeepsPointer(cfg: Config, st: Store, c: Conn, line: string, io: Io)
    requires PointerSound(st.db, c)
    ensures var (st', c', _) := Handle(cfg, st, c, PostArticle, line, io); PointerSound(st'.db, c')
  {
    PostOnlyGrows(cfg.rules, st, PolicyOf(cfg, c), io.post);
  }

  /** Every command keeps the pointer sound, whatever the ACLs, but for that one LISTGROUP. */
  lemma CommandKeepsPointer(cfg: Config, st: Store, c: Conn, cmd: Command, line: string, io: Io)
    requires RowsSound(st.db) && PointerSound(st.db, c)
    ensures PointerSound(Handle(cfg, st, c, cmd, line, io).0.db, Handle(cfg, st, c, cmd, line, io).1)
            <==> !MixesUp(cfg, st.db, c, cmd, NthWord(line, 1))
  {
    match cmd
    case SelectGroup => GroupKeepsPointer(cfg, st.db, c, NthWord(line, 1));
    case ListGroup => ListGroupKeepsPointer(cfg, st.db, c, NthWord(line, 1));
    case Article => ArticleKeepsPointer(st, c, FirstLetter(line), NthWord(line, 1), cfg.affinity);
    case PostArticle => PostKeepsPointer(cfg, st, c, line, io);
    case _ => OthersKeepPlace(cfg, st, c, cmd, line, io);
  }

  /** The same for a turn of the main loop. */
  predicate TurnMixesUp(cfg: Config, db: Db, c: Conn, sent: string, io: Io) {
    var c1 := Ready(c, io);
    var cmd := TurnReaches(cfg, c1, sent);
    c1.alive && cmd.Some? && MixesUp(cfg, db, c1, cmd.value, NthWord(CommandLine(sent).value, 1))
  }

  lemma ServeKeepsPointer(cfg: Config, st: Store, c: Conn, sent: string, io: Io)
    requires RowsSound(st.db) && PointerSound(st.db, c)
    ensures PointerSound(Serve(cfg, st, c, sent, io).0.db, Serve(cfg, st, c, sent, io).1)
            <==> !TurnMixesUp(cfg, st.db, c, sent, io)
  {
    var c1 := Ready(c, io);
    if c1.alive {
      var cmd := TurnReaches(cfg, c1, sent);
      if cmd.Some? {
        CommandKeepsPointer(cfg, st, c1, cmd.value, CommandLine(sent).value, io);
      }
    }
  }

  /** A bare ARTICLE, HEAD, BODY or STAT with a selected article is answered with that article. */
  lemma BareArticleIsFound(st: Store, c: Conn, letter: char, affinity: Affinity)
    requires Numbered(st.db) && PointerSound(st.db, c) && c.article.Some?
    ensures var m := MessageAt(st.db, c.group.value, c.article.value);
            m.Some? && ArticleCmd(st, c, letter, None, affinity)
                       == (c.(foundArticle := true), Text(Shown(st, letter, c.article.value, m.value)))
  {
    PointerNamesOne(st.db, c);
  }

  /** Without a closing bracket there is no id. */
  lemma NoClose(s: string)
    requires Free(s, '>')
    ensures IdArgument(s) == None
  {
    forall q: nat | At(s, q, ">") ensures s[q] == '>' {
      assert s[q] == s[q..q + 1][0];
    }
  }

  /** What ARTICLE, HEAD, BODY and STAT do without finding an article: 412 without a group; 420 without
      an argument or an article, and for an argument that is neither a number nor an id with its
      bracket; 430 for an id that is not in the group or a number no article has.  The pointer stays. */
  lemma NotFound(st: Store, c: Conn, letter: char, arg: Option<string>, affinity: Affinity)
    ensures var (c', r) := ArticleCmd(st, c, letter, arg, affinity);
            && (!r.Text? ==> c' == c.(foundArticle := false))
            && (c.group == None ==> r == Line(412))
            && (c.group.Some? && arg == None && c.article == None ==> r == Line(420))
            && (c.group.Some? && arg.Some? && (arg.value == [] || (arg.value[0] != '<' && !IsDigit(arg.value[0])))
                ==> r == Line(420))
            && (c.group.Some? && arg.Some? && Free(arg.value, '>') && arg.value != [] && arg.value[0] == '<'
                ==> r == Line(420))
            && (r.Text? || r == Line(412) || r == Line(420) || r == Line(430))
  {
    if arg.Some? && Free(arg.value, '>') {
      NoClose(arg.value);
    }
  }

  lemma DeniedStillSelects(cfg: Config, db: Db, c: Conn, g: string)
    requires AclOn(cfg) && g in db.groups && !Access(db, c.user, g)
    ensures ListGroupCmd(cfg, db, c, Some(g)) == (c.(group := Some(g)), Line(411))
  {
  }

  /** What follows: LISTGROUP of a denied group selects it all the same and leaves the pointer, and
      a bare ARTICLE then answers 430 exactly when that group has not so many. */
  lemma DeniedListGroupMixesUp(cfg: Config, st: Store, c: Conn, g: string, letter: char, affinity: Affinity)
    requires Numbered(st.db) && AclOn(cfg) && g in st.db.groups
    requires !Access(st.db, c.user, g) && c.article.Some? && c.article.value > 0
    ensures var c1 := ListGroupCmd(cfg, st.db, c, Some(g)).0;
            ArticleCmd(st, c1, letter, None, affinity).1 == Line(430) <==> c.article.value > st.db.groups[g].high
  {
    DeniedStillSelects(cfg, st.db, c, g);
    HasIffInRange(st.db, g, c.article.value);
  }

  lemma HasIffInRange(db: Db, g: string, n: nat)
    requires Numbered(db) && g in db.groups && n > 0
    ensures Has(db, g, n) <==> n <= db.groups[g].high
  {
    if Has(db, g, n) {
      var m :| Row(db, m, g, n);
      assert Key(m, g) in db.ngposts;
    }
  }

  // ---------- Authentication ----------

  /** Without authentication only these are handled. */
  predicate NeedsNoLogin(cmd: Command) {
    cmd in {Quit, AuthinfoUser, AuthinfoPass, StartTls}
  }

  lemma LockedOut(cfg: Config, c: Conn, line: string)
    requires cfg.useAuth
    ensures !c.auth && Reached(cfg, c, line).Some? ==> NeedsNoLogin(Reached(cfg, c, line).value)
  {
  }

  predicate IsAuthinfo(cmd: Option<Command>) {
    cmd == Some(AuthinfoUser) || cmd == Some(AuthinfoPass)
  }

  /** This PASS is accepted for this user. */
  predicate PassAccepted(cfg: Config, db: Db, c: Conn, cmd: Option<Command>, arg: Option<string>, name: string) {
    cmd == Some(AuthinfoPass) && c.user == Some(name) && arg.Some? && PasswordFits(cfg, db, name, arg.value)
  }

  lemma PassStep(cfg: Config, db: Db, c: Conn, arg: Option<string>)
    ensures var (c', r) := PassCmd(cfg, db, c, arg);
            (r == Line(281) <==> c'.auth) &&
            (c'.auth ==> exists name :: PassAccepted(cfg, db, c, Some(AuthinfoPass), arg, name)
                                       && (cfg.useAcl ==> c'.user == Some(name)))
  {
    if PassCmd(cfg, db, c, arg).0.auth {
      assert PassAccepted(cfg, db, c, Some(AuthinfoPass), arg, c.user.value);
    }
  }

  /** AUTHINFO USER: 381 and the name is held, or 501; either way the login ends. */
  lemma UserReplies(c: Conn, name: string)
    ensures UserCmd(c, None) == (c.(auth := false), Line(501))
    ensures UserCmd(c, Some(name)) == (c.(auth := false, user := Some(name)), Line(381))
  {
  }

  /** AUTHINFO PASS: 381 when no name is held, 501 without a word, else 281 or 482 by the hash stored;
      the name is then forgotten unless ACLs are configured, so that a second PASS is answered 381. */
  lemma PassReplies(cfg: Config, db: Db, c: Conn, u: string, word: string)
    ensures c.user == None ==> PassCmd(cfg, db, c, Some(word)) == (c.(auth := false), Line(381))
    ensures c.user == Some(u) ==> PassCmd(cfg, db, c, None) == (c.(auth := false), Line(501))
    ensures c.user == Some(u) ==>
              var good := u in db.users && db.users[u] == cfg.hash(u, word);
              PassCmd(cfg, db, c, Some(word))
              == (c.(auth := good, user := if cfg.useAcl then Some(u) else None), Line(if good then 281 else 482))
    ensures c.user == Some(u) && !cfg.useAcl ==>
              PassCmd(cfg, db, PassCmd(cfg, db, c, Some(word)).0, Some(word)).1 == Line(381)
  {
  }

  /** Authentication changes only by AUTHINFO: USER and a rejected PASS end it, an accepted PASS
      grants it, and with ACLs the accepted name stays. */
  lemma AuthStep(cfg: Config, st: Store, c: Conn, cmd: Command, line: string, io: Io)
    ensures var c' := Handle(cfg, st, c, cmd, line, io).1;
            && (!IsAuthinfo(Some(cmd)) ==> c'.auth == c.auth && c'.user == c.user)
            && (IsAuthinfo(Some(cmd)) && c'.auth ==>
                  exists name :: PassAccepted(cfg, st.db, c, Some(cmd), NthWord(line, 2), name)
                                 && (cfg.useAcl ==> c'.user == Some(name)))
  {
    if cmd == AuthinfoPass {
      PassStep(cfg, st.db, c, NthWord(line, 2));
    } else if cmd != AuthinfoUser && cmd != StartTls {
      OthersKeepLogin(cfg, st, c, cmd, line, io);
    }
  }

  // ---------- Articles in full ----------

  /** The four replies to a found article, spelled out; STAT sends nothing behind its line. */
  lemma RepliesInFull(st: Store, num: nat, id: string)
    requires id in st.db.postings && FileName(id) in st.bodies
    ensures var header, body := st.db.postings[id].header, st.bodies[FileName(id)];
            && Shown(st, 'a', num, id)
               == "220 " + Dec(num) + " " + id + " article retrieved - head and body follow\r\n"
                  + (header + "\r\n" + body)
            && Shown(st, 'h', num, id)
               == "221 " + Dec(num) + " " + id + " article retrieved - head follows\r\n" + (header + ".\r\n")
            && Shown(st, 'b', num, id) == "222 " + Dec(num) + " " + id + " article retrieved - body follows\r\n" + body
            && Shown(st, 's', num, id)
               == "223 " + Dec(num) + " " + id + " article retrieved - request text separately\r\n"
  {
    assert "\r\n" == CRLF;
    StatLine(st, num, id);
  }

  lemma StatLine(st: Store, num: nat, id: string)
    ensures Shown(st, 's', num, id) == "223 " + Dec(num) + " " + id + " article retrieved - request text separately\r\n"
  {
    var line := Status('s', num, id);
    assert line + [] == line;
  }

  // ---------- The other replies ----------

  /** QUIT says goodbye and ends the connection; NEWNEWS and unknown commands are refused. */
  lemma FixedReplies(cfg: Config, st: Store, c: Conn, line: string, io: Io)
    ensures Handle(cfg, st, c, Quit, line, io) == (st, c.(alive := false), Line(205))
    ensures Handle(cfg, st, c, Newnews, line, io) == (st, c, Line(502))
    ensures Handle(cfg, st, c, Unknown, line, io) == (st, c, Line(500))
  {
  }

  /** POST is answered with its code; where that ends the connection, the session is dead. */
  lemma PostReplies(cfg: Config, st: Store, c: Conn, line: string, io: Io)
    ensures var (st', answer) := Posted(cfg.rules, st, PolicyOf(cfg, c), io.post);
            Handle(cfg, st, c, PostArticle, line, io)
            == if answer.Killed? then (st', c.(alive := false), Gone) else (st', c, Line(answer.code))
  {
  }

  // ---------- TLS ----------

  /** STARTTLS is answered 382, and a switch is then pending, if and only if the connector offers it, TLS
      is not on yet and nobody has logged in; else 502, and nothing changes. */
  lemma StartTlsReplies(cfg: Config, c: Conn)
    ensures StartTlsCmd(cfg, c)
            == if c.starttls && !c.tls && !(cfg.useAuth && c.auth) then (c.(switchTls := true), Line(382))
               else (c, Line(502))
  {
  }

  /** A switch is only ever pending on a plain, unauthenticated connection that offers STARTTLS. */
  predicate TlsSound(cfg: Config, c: Conn) {
    c.switchTls ==> !c.tls && c.starttls && !(cfg.useAuth && c.auth)
  }

  lemma TlsStep(cfg: Config, st: Store, c: Conn, cmd: Command, line: string, io: Io)
    requires !c.switchTls
    ensures var c' := Handle(cfg, st, c, cmd, line, io).1;
            c'.tls == c.tls && TlsSound(cfg, c')
  {
    if cmd != AuthinfoUser && cmd != AuthinfoPass && cmd != StartTls {
      OthersKeepLogin(cfg, st, c, cmd, line, io);
    }
  }

  /** One turn of the main loop: TLS never goes off, it goes on only where a switch was pending,
      and the command that follows a switch starts without group and article. */
  lemma TlsTurn(cfg: Config, st: Store, c: Conn, sent: string, io: Io)
    requires TlsSound(cfg, c)
    ensures var c' := Serve(cfg, st, c, sent, io).1;
            && TlsSound(cfg, c') && (c.tls ==> c'.tls)
            && (c'.tls && !c.tls <==> c.switchTls && io.tlsOk)
    ensures c.switchTls && io.tlsOk ==> Ready(c, io).group == None && Ready(c, io).article == None
  {
    var c1 := Ready(c, io);
    var cmd := TurnReaches(cfg, c1, sent);
    if c1.alive && cmd.Some? {
      TlsStep(cfg, st, c1, cmd.value, CommandLine(sent).value, io);
    }
  }

  /** A handshake that fails ends the connection, and so does one that sends no line; neither is answered
      or changes the store. */
  lemma TurnEnds(cfg: Config, st: Store, c: Conn, sent: string, io: Io)
    requires c.alive
    ensures c.switchTls && !io.tlsOk ==>
              Serve(cfg, st, c, sent, io) == (st, c.(switchTls := false, alive := false), Gone)
    ensures !c.switchTls && CommandLine(sent) == None ==>
              Serve(cfg, st, c, sent, io) == (st, c.(alive := false), Gone)
  {
  }
}
