/** A posting to one group, and the shortest run of the server that accepts one. */
module PostExample {
  import opened CStrings
  import opened Delivery
  import opened Post
  import opened PostFacts
  import Receive
  import opened Tables
  import HeaderLines
  import opened Session
  import opened Admin
  import opened System
  import opened CommandReader
  import CommandLines
  import Keywords
  import LineLookup
  import Overview
  import Replies

  /** Nothing but the group, the blank line and the dot. */
  function HeaderFor(g: string): string {
    "Newsgroups: " + g + CRLF
  }

  const DOT := ".\r\n"

  predicate SingleGroup(g: string) {
    g != [] && OneLine(g) && Free(g, ',')
  }

  lemma KeyLine(key: string, value: string)
    requires key != [] && value != [] && OneLine(value)
    ensures LineLookup.LineValue(key + " " + value + CRLF, key) == Some(value)
  {
    Overview.TakeLine(key, value, []);
    assert key + " " + value + CRLF + [] == key + " " + value + CRLF;
  }

  lemma HeaderNames(g: string)
    requires SingleGroup(g)
    ensures LineLookup.LineValue(HeaderFor(g), "Newsgroups:") == Some(g)
  {
    KeyLine("Newsgroups:", g);
    assert HeaderFor(g) == "Newsgroups:" + " " + g + CRLF;
  }

  lemma OneToken(g: string)
    requires SingleGroup(g)
    ensures Tokens(g) == [g]
  {
    assert BeforeComma(g) == |g| && g[..|g|] == g && g[|g|..] == [];
  }

  lemma Splits(g: string)
    requires SingleGroup(g)
    ensures Receive.SplitArticle(HeaderFor(g) + CRLF + DOT) == Receive.Parts(HeaderFor(g), DOT)
  {
    var line := "Newsgroups: " + g;
    assert OneLine(line);
    Replies.MarkedIff([line], "");
    assert HeaderLines.Join([line]) == line + CRLF && Replies.Marked("") == Receive.BLANK_LINE;
    Replies.LastTwo(HeaderFor(g));
    Replies.SplitsBackIff(HeaderFor(g), DOT);
  }

  lemma ReadAtOnce(text: string, max: nat)
    requires EndsWith(text, Receive.TERMINATOR) && |text| < max
    ensures Receive.Outcome([], [text], max) == Receive.Complete(text)
  {
    assert [] + text == text;
  }

  lemma SmallEnds(g: string)
    requires SingleGroup(g)
    ensures EndsWith(HeaderFor(g) + CRLF + DOT, Receive.TERMINATOR)
  {
    var text := HeaderFor(g) + CRLF + DOT;
    assert text == "Newsgroups: " + g + CRLF + Receive.TERMINATOR;
  }

  /** Whatever else the store holds: a posting that names one open group with room is accepted. */
  lemma OneGroupIsAccepted(rules: Rules, st: Store, p: Policy, env: Env, g: string)
    requires StoreInv(st) && SingleGroup(g) && MayPost(st.db, g) && Permitted(st.db, p, g)
    requires st.db.groups[g].high < MAX_HIGH && env.counterOk && env.clockOk
    requires env.chunks == [HeaderFor(g) + CRLF + DOT] && |env.chunks[0]| < rules.maxPostSize
    requires rules.requiredLines(HeaderFor(g))
    ensures Posted(rules, st, p, env).1 == Answered(240)
  {
    HeaderNames(g);
    OneToken(g);
    Splits(g);
    SmallEnds(g);
    ReadAtOnce(env.chunks[0], rules.maxPostSize);
    NameErrorIff(st.db, [g]);
    assert Screen(rules, st.db, env) == Passed(HeaderFor(g), DOT, g);
    ReplyIs240Iff(st, p, env, HeaderFor(g), DOT, g);
    assert PermittedOnly(st.db, [g], p) == [g];
  }

  // ---------- A run ----------

  lemma GroupAdded(hash: (string, string) -> string)
    ensures var db := Administered(hash, EMPTY, AddGroup("g", "y"));
            MayPost(db, "g") && db.groups["g"].high == 0
  {
    assert IsAlnum('g') && FlagOf("y") == 'y';
    assert Goes(EMPTY, AddGroup("g", "y"));
  }

  lemma PostArrives()
    ensures CommandLine("post" + CRLF) == Some("post")
  {
    CommandLines.TypedIsPlain("post", "post");
    CommandLines.BareArrives("post");
  }

  lemma PostReached(cfg: Config, c: Conn)
    requires !cfg.useAuth && !cfg.tlsMandatory
    ensures Reached(cfg, c, "post") == Some(PostArticle)
  {
    CommandLines.TypedStarts("post", "post", []);
    assert "post" + [] == "post";
    Keywords.PostArticleWord("post");
  }

  lemma PostRuns(cfg: Config, st: Store, c: Conn, line: string, io: Io)
    requires Posted(cfg.rules, st, PolicyOf(cfg, c), io.post).1 == Answered(240)
    ensures Handle(cfg, st, c, PostArticle, line, io).2 == Line(240)
  {
  }

  lemma PostHandled(cfg: Config, st: Store, c: Conn, line: string, io: Io)
    requires Reached(cfg, c, line) == Some(PostArticle)
    requires Posted(cfg.rules, st, PolicyOf(cfg, c), io.post).1 == Answered(240)
    ensures DoCommand(cfg, st, c, line, io).2 == Line(240)
  {
    PostRuns(cfg, st, c, line, io);
    assert DoCommand(cfg, st, c, line, io) == Handle(cfg, st, c, PostArticle, line, io);
  }

  lemma AnsweredWith240(cfg: Config, st: Store, c: Conn, io: Io)
    requires !cfg.useAuth && !cfg.tlsMandatory && c.alive && !c.switchTls
    requires Posted(cfg.rules, st, PolicyOf(cfg, c), io.post).1 == Answered(240)
    ensures Serve(cfg, st, c, "post" + CRLF, io).2 == Line(240)
  {
    PostArrives();
    PostReached(cfg, c);
    PostHandled(cfg, st, c, "post", io);
  }

  /** The server without authentication: a group is added, a client connects and posts 20 bytes. */
  lemma FirstArticle(cfg: Config, io: Io) returns (r: Run)
    requires !cfg.useAuth && !cfg.tlsMandatory && cfg.rules.maxPostSize > 20
    requires cfg.rules.requiredLines(HeaderFor("g"))
    requires io.post.chunks == [HeaderFor("g") + CRLF + DOT] && io.post.counterOk && io.post.clockOk
    ensures IsRun(r) && r.cfg == cfg && |r.ev| == 3 && AcceptedAt(r, 2, 0)
  {
    r := RunOf(cfg, [Administers(AddGroup("g", "y")), Opens(0, false, false), Sends(0, "post" + CRLF, io)]);
    ReachableIsSound(r, 2);
    BeforePosting(r);
    var st, c := r.ws[2].store, Opened(cfg, false, false);
    OneGroupIsAccepted(cfg.rules, st, PolicyOf(cfg, c), io.post, "g");
    AnsweredWith240(cfg, st, c, io);
    assert Linked(r, 2);
  }

  lemma BeforePosting(r: Run)
    requires IsRun(r) && |r.ev| == 3 && r.ev[0] == Administers(AddGroup("g", "y")) && r.ev[1] == Opens(0, false, false)
    ensures MayPost(r.ws[2].store.db, "g") && r.ws[2].store.db.groups["g"].high == 0
    ensures 0 in r.ws[2].sessions && r.ws[2].sessions[0] == Opened(r.cfg, false, false)
  {
    assert Linked(r, 0) && Linked(r, 1);
    GroupAdded(r.cfg.hash);
  }
}
