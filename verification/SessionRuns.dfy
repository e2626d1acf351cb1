/** Sessions over whole runs of the server: the article pointer with many sessions interleaved,
    who may reach which handler, and the one switch to TLS. */
module SessionRuns {
  import opened CStrings
  import opened Post
  import opened Tokenizer
  import opened CommandReader
  import opened Session
  import opened SessionFacts
  import opened Admin
  import opened System

  // ---------- Reaching a state ----------

  /** What event j does to a connection: nothing, unless it is that session's own command. */
  lemma OwnStep(r: Run, j: nat, sid: nat)
    requires IsRun(r) && j < |r.ev| && sid in r.ws[j].sessions
    ensures sid in r.ws[j + 1].sessions
    ensures !Turns(r, j, sid) ==> r.ws[j + 1].sessions[sid] == r.ws[j].sessions[sid]
    ensures Turns(r, j, sid) ==>
              (r.ws[j + 1].store, r.ws[j + 1].sessions[sid], r.replies[j])
              == Serve(r.cfg, r.ws[j].store, r.ws[j].sessions[sid], r.ev[j].sent, r.ev[j].io)
  {
    assert Linked(r, j);
  }

  /** The main loop of session sid turns at event j. */
  predicate Turns(r: Run, j: nat, sid: nat)
    requires j < |r.ev| <= |r.ws|
  {
    r.ev[j].Sends? && r.ev[j].sid == sid && sid in r.ws[j].sessions && r.ws[j].sessions[sid].alive
  }

  /** A session that is new after event j was opened by it: logged in only if no login is needed, without
      a group or an article, on TLS only if its connector is. */
  lemma NewSession(r: Run, j: nat, sid: nat)
    requires IsRun(r) && j < |r.ev| && sid !in r.ws[j].sessions && sid in r.ws[j + 1].sessions
    ensures r.ev[j].Opens? && r.ws[j + 1].sessions[sid] == Opened(r.cfg, r.ev[j].starttls, r.ev[j].tls)
    ensures var c := r.ws[j + 1].sessions[sid];
            && c.alive && c.auth == !r.cfg.useAuth && c.user == None && c.group == None && c.article == None
            && c.starttls == r.ev[j].starttls && c.tls == r.ev[j].tls && !c.switchTls && !c.foundArticle
  {
    assert Linked(r, j);
  }

  /** Between its own turns a session stays as it is. */
  lemma {:induction false} SessionWaits(r: Run, i: nat, j: nat, sid: nat)
    requires IsRun(r) && i <= j <= |r.ev| && sid in r.ws[i].sessions
    requires forall m :: i <= m < j ==> !Turns(r, m, sid)
    ensures sid in r.ws[j].sessions && r.ws[j].sessions[sid] == r.ws[i].sessions[sid]
    decreases j
  {
    if i < j {
      SessionWaits(r, i, j - 1, sid);
      OwnStep(r, j - 1, sid);
    }
  }

  /** A connection that has ended stays so, and nothing it sends is answered or changes anything. */
  lemma {:induction false} DeadStaysDead(r: Run, i: nat, j: nat, sid: nat)
    requires IsRun(r) && i <= j <= |r.ev| && sid in r.ws[i].sessions && !r.ws[i].sessions[sid].alive
    ensures sid in r.ws[j].sessions && r.ws[j].sessions[sid] == r.ws[i].sessions[sid]
    ensures j < |r.ev| && r.ev[j].Sends? && r.ev[j].sid == sid ==>
              r.replies[j] == Gone && r.ws[j + 1] == r.ws[j]
    decreases j
  {
    if i < j {
      DeadStaysDead(r, i, j - 1, sid);
      OwnStep(r, j - 1, sid);
    }
    assert j < |r.ev| ==> Linked(r, j);
  }

  // ---------- The selected group ----------

  /** At event k session sid selects this group: by GROUP, with access at that moment, or by LISTGROUP. */
  ghost predicate SelectsAt(r: Run, k: nat, sid: nat, g: string)
    requires IsRun(r) && k < |r.ev|
  {
    Runs(r, k, sid)
    && Selects(r.cfg, r.ws[k].store.db, Runner(r, k, sid), Handler(r, k, sid), NthWord(LineAt(r, k, sid), 1), g)
  }

  /** Session sid has this group selected. */
  predicate HasGroup(r: Run, j: nat, sid: nat, g: string)
    requires j < |r.ws|
  {
    sid in r.ws[j].sessions && r.ws[j].sessions[sid].group == Some(g)
  }

  lemma GroupHadOrigin(r: Run, j: nat, sid: nat, g: string) returns (here: bool)
    requires IsRun(r) && j < |r.ev| && HasGroup(r, j + 1, sid, g)
    ensures if here then SelectsAt(r, j, sid, g) else HasGroup(r, j, sid, g)
  {
    here := !HasGroup(r, j, sid, g);
    if sid !in r.ws[j].sessions {
      NewSession(r, j, sid);
    } else {
      OwnStep(r, j, sid);
      if Turns(r, j, sid) {
        GroupOfTurn(r.cfg, r.ws[j].store, r.ws[j].sessions[sid], r.ev[j].sent, r.ev[j].io);
      }
    }
  }

  /** Whoever has a group selected has selected it, and it existed then; by GROUP only with access. */
  lemma {:induction false} GroupWasSelected(r: Run, j: nat, sid: nat, g: string) returns (k: nat)
    requires IsRun(r) && j <= |r.ev| && HasGroup(r, j, sid, g)
    ensures k < j && SelectsAt(r, k, sid, g)
    decreases j
  {
    assert j > 0;
    var here := GroupHadOrigin(r, j - 1, sid, g);
    if here {
      k := j - 1;
    } else {
      k := GroupWasSelected(r, j - 1, sid, g);
    }
  }

  /** A GROUP handled at event j: the group is selected if it exists and the user has access at that
      moment; else the session stays as it was. */
  lemma GroupAtEvent(r: Run, j: nat, sid: nat)
    requires IsRun(r) && j < |r.ev| && Runs(r, j, sid) && Handler(r, j, sid) == Some(SelectGroup)
    ensures var arg, c := NthWord(LineAt(r, j, sid), 1), Runner(r, j, sid);
            sid in r.ws[j + 1].sessions && r.ws[j + 1].store == r.ws[j].store
            && var c' := r.ws[j + 1].sessions[sid];
               if arg.Some? && SelectsAt(r, j, sid, arg.value) then c'.group == arg && r.replies[j].GroupLine?
               else c' == c && r.replies[j] == Line(if arg.Some? then 411 else 501)
  {
    OwnStep(r, j, sid);
    GroupTurn(r.cfg, r.ws[j].store, Runner(r, j, sid), LineAt(r, j, sid), r.ev[j].io);
  }

  lemma GroupTurn(cfg: Config, st: Store, c: Conn, line: string, io: Io)
    requires Reached(cfg, c, line) == Some(SelectGroup)
    ensures var arg, (st', c', r) := NthWord(line, 1), DoCommand(cfg, st, c, line, io);
            st' == st
            && if arg.Some? && Selects(cfg, st.db, c, Some(SelectGroup), arg, arg.value) then
                 c'.group == arg && r.GroupLine?
               else c' == c && r == Line(if arg.Some? then 411 else 501)
  {
    var arg := NthWord(line, 1);
    if arg.Some? { GroupDenied(cfg, st.db, c, arg.value); }
  }

  // ---------- The article pointer ----------

  /** A group that is not deleted neither disappears nor shrinks. */
  lemma GroupStays(cfg: Config, w: World, e: Event, g: string)
    requires e != Administers(DelGroup(g)) && g in w.store.db.groups
    ensures var db := Step(cfg, w, e).store.db;
            g in db.groups && db.groups[g].high >= w.store.db.groups[g].high
  {
    match e
    case Sends(sid, sent, io) =>
      if sid in w.sessions {
        ServeOnlyGrows(cfg, w.store, w.sessions[sid], sent, io);
      }
    case _ =>
  }

  /** What takes its place from a session: its own LISTGROUP of a denied group that is too small, or
      the deletion of its group while an article is selected. */
  ghost predicate LosesPlace(r: Run, j: nat, sid: nat)
    requires IsRun(r) && j < |r.ev| && sid in r.ws[j].sessions
  {
    var db, c := r.ws[j].store.db, r.ws[j].sessions[sid];
    match r.ev[j]
    case Opens(_, _, _) => false
    case Sends(_, sent, io) => Turns(r, j, sid) && TurnMixesUp(r.cfg, db, c, sent, io)
    case Administers(cmd) => cmd.DelGroup? && Goes(db, cmd) && c.article.Some? && c.group == Some(cmd.name)
  }

  lemma OthersLeavePlace(r: Run, j: nat, sid: nat)
    requires IsRun(r) && j < |r.ev| && sid in r.ws[j].sessions && !Turns(r, j, sid)
    requires PointerSound(r.ws[j].store.db, r.ws[j].sessions[sid])
    ensures PointerSound(r.ws[j + 1].store.db, r.ws[j].sessions[sid]) <==> !LosesPlace(r, j, sid)
  {
    var c := r.ws[j].sessions[sid];
    assert Linked(r, j);
    if c.article.Some? && r.ev[j] != Administers(DelGroup(c.group.value)) {
      GroupStays(r.cfg, r.ws[j], r.ev[j], c.group.value);
    }
  }

  /** Nothing else does: a sound pointer stays sound over an event if and only if it is not one of
      these two, whatever the ACLs and whoever acts. */
  lemma SoundUnlessLost(r: Run, j: nat, sid: nat)
    requires IsRun(r) && j < |r.ev| && sid in r.ws[j].sessions
    requires PointerSound(r.ws[j].store.db, r.ws[j].sessions[sid])
    ensures sid in r.ws[j + 1].sessions
    ensures PointerSound(r.ws[j + 1].store.db, r.ws[j + 1].sessions[sid]) <==> !LosesPlace(r, j, sid)
  {
    ReachableIsSound(r, j);
    OwnStep(r, j, sid);
    if Turns(r, j, sid) {
      ServeKeepsPointer(r.cfg, r.ws[j].store, r.ws[j].sessions[sid], r.ev[j].sent, r.ev[j].io);
    } else {
      OthersLeavePlace(r, j, sid);
    }
  }

  /** In every interleaving of commands from many sessions and of administration, the selected article
      of a session that has not lost its place is NULL or an article of its selected group. */
  lemma {:induction false} PointersStaySound(r: Run, i: nat, j: nat, sid: nat)
    requires IsRun(r) && i <= j <= |r.ev|
    requires sid in r.ws[i].sessions ==> PointerSound(r.ws[i].store.db, r.ws[i].sessions[sid])
    requires forall m :: i <= m < j && sid in r.ws[m].sessions ==> !LosesPlace(r, m, sid)
    ensures sid in r.ws[j].sessions ==> PointerSound(r.ws[j].store.db, r.ws[j].sessions[sid])
    decreases j
  {
    if i < j && sid in r.ws[j].sessions {
      PointersStaySound(r, i, j - 1, sid);
      if sid !in r.ws[j - 1].sessions {
        NewSession(r, j - 1, sid);
      } else {
        SoundUnlessLost(r, j - 1, sid);
      }
    }
  }

  /** So a bare ARTICLE, HEAD, BODY or STAT never answers 430 once an article is selected. */
  lemma BareArticleNeverMissing(r: Run, j: nat, sid: nat, letter: char)
    requires IsRun(r) && j <= |r.ev|
    requires forall m :: 0 <= m < j && sid in r.ws[m].sessions ==> !LosesPlace(r, m, sid)
    requires sid in r.ws[j].sessions && r.ws[j].sessions[sid].article.Some?
    ensures ArticleCmd(r.ws[j].store, r.ws[j].sessions[sid], letter, None, r.cfg.affinity).1.Text?
  {
    PointersStaySound(r, 0, j, sid);
    ReachableIsSound(r, j);
    BareArticleIsFound(r.ws[j].store, r.ws[j].sessions[sid], letter, r.cfg.affinity);
  }

  // ---------- Authentication ----------

  /** Session sid has an AUTHINFO command handled at event j. */
  ghost predicate AuthinfoAt(r: Run, j: nat, sid: nat)
    requires IsRun(r) && j < |r.ev|
  {
    Runs(r, j, sid) && IsAuthinfo(Handler(r, j, sid))
  }

  /** It is a PASS, and it is accepted for this name. */
  ghost predicate AcceptedPassAt(r: Run, k: nat, sid: nat, name: string)
    requires IsRun(r) && k < |r.ev|
  {
    Runs(r, k, sid)
    && PassAccepted(r.cfg, r.ws[k].store.db, Runner(r, k, sid), Handler(r, k, sid), NthWord(LineAt(r, k, sid), 2),
                    name)
  }

  /** Event k is the latest AUTHINFO of the session before j, and an accepted PASS. */
  ghost predicate BackedBy(r: Run, j: nat, sid: nat, k: nat, name: string)
    requires IsRun(r) && j <= |r.ev|
  {
    && k < j && AcceptedPassAt(r, k, sid, name)
    && forall i :: k < i < j ==> !AuthinfoAt(r, i, sid)
  }

  /** One turn of the main loop, as far as the login is concerned. */
  lemma AuthTurn(cfg: Config, st: Store, c: Conn, sent: string, io: Io)
    ensures var c1, c' := Ready(c, io), Serve(cfg, st, c, sent, io).1;
            var cmd := TurnReaches(cfg, c1, sent);
            && (!c1.alive || !IsAuthinfo(cmd) ==> c'.auth == c.auth && c'.user == c.user)
            && (c1.alive && IsAuthinfo(cmd) && c'.auth ==>
                  exists name :: PassAccepted(cfg, st.db, c1, cmd, NthWord(CommandLine(sent).value, 2), name)
                                 && (cfg.useAcl ==> c'.user == Some(name)))
  {
    var c1 := Ready(c, io);
    var cmd := TurnReaches(cfg, c1, sent);
    if c1.alive && cmd.Some? {
      AuthStep(cfg, st, c1, cmd.value, CommandLine(sent).value, io);
    }
  }

  /** The same for one event of a run. */
  lemma AuthOfStep(r: Run, i: nat, sid: nat) returns (name: string)
    requires IsRun(r) && i < |r.ev| && sid in r.ws[i].sessions
    ensures sid in r.ws[i + 1].sessions
    ensures var c, c' := r.ws[i].sessions[sid], r.ws[i + 1].sessions[sid];
            && (!AuthinfoAt(r, i, sid) ==> c'.auth == c.auth && c'.user == c.user)
            && (AuthinfoAt(r, i, sid) && c'.auth ==>
                  BackedBy(r, i + 1, sid, i, name) && (r.cfg.useAcl ==> c'.user == Some(name)))
  {
    name := [];
    OwnStep(r, i, sid);
    if Turns(r, i, sid) {
      var c, c' := r.ws[i].sessions[sid], r.ws[i + 1].sessions[sid];
      AuthTurn(r.cfg, r.ws[i].store, c, r.ev[i].sent, r.ev[i].io);
      if AuthinfoAt(r, i, sid) && c'.auth {
        name :| PassAccepted(r.cfg, r.ws[i].store.db, Runner(r, i, sid), Handler(r, i, sid),
                             NthWord(LineAt(r, i, sid), 2), name)
                && (r.cfg.useAcl ==> c'.user == Some(name));
      }
    }
  }

  lemma StillBacked(r: Run, i: nat, sid: nat, k: nat, name: string)
    requires IsRun(r) && i < |r.ev| && BackedBy(r, i, sid, k, name) && !AuthinfoAt(r, i, sid)
    ensures BackedBy(r, i + 1, sid, k, name)
  {
    forall m | k < m < i + 1 ensures !AuthinfoAt(r, m, sid) {
      assert m < i || m == i;
    }
  }

  lemma NewIsLocked(r: Run, i: nat, sid: nat)
    requires IsRun(r) && i < |r.ev| && r.cfg.useAuth && sid in r.ws[i + 1].sessions && r.ws[i + 1].sessions[sid].auth
    ensures sid in r.ws[i].sessions
  {
    if sid !in r.ws[i].sessions {
      NewSession(r, i, sid);
    }
  }

  /** Whoever is authenticated owes it to an accepted PASS that was the latest AUTHINFO handled;
      with ACLs the name it was accepted for is the session's user. */
  lemma {:induction false} AuthIsBacked(r: Run, j: nat, sid: nat) returns (k: nat, name: string)
    requires IsRun(r) && j <= |r.ev| && r.cfg.useAuth
    requires sid in r.ws[j].sessions && r.ws[j].sessions[sid].auth
    ensures BackedBy(r, j, sid, k, name)
    ensures r.cfg.useAcl ==> r.ws[j].sessions[sid].user == Some(name)
  {
    assert j > 0;
    NewIsLocked(r, j - 1, sid);
    name := AuthOfStep(r, j - 1, sid);
    k := j - 1;
    if !AuthinfoAt(r, j - 1, sid) {
      k, name := AuthIsBacked(r, j - 1, sid);
      StillBacked(r, j - 1, sid, k, name);
    }
  }

  /** With authentication on, a command reaches a handler other than QUIT, AUTHINFO or STARTTLS
      only if the latest AUTHINFO the session had handled was an accepted PASS, and with ACLs on
      the session then runs under the accepted name. */
  lemma HandlersNeedPass(r: Run, j: nat, sid: nat) returns (k: nat, name: string)
    requires IsRun(r) && j < |r.ev| && r.cfg.useAuth && Runs(r, j, sid)
    requires Handler(r, j, sid).Some? && !NeedsNoLogin(Handler(r, j, sid).value)
    ensures BackedBy(r, j, sid, k, name)
    ensures r.cfg.useAcl ==> Runner(r, j, sid).user == Some(name)
  {
    LockedOut(r.cfg, Runner(r, j, sid), LineAt(r, j, sid));
    k, name := AuthIsBacked(r, j, sid);
  }

  // ---------- TLS ----------

  lemma {:induction false} TlsStaysSound(r: Run, j: nat, sid: nat)
    requires IsRun(r) && j <= |r.ev| && sid in r.ws[j].sessions
    ensures TlsSound(r.cfg, r.ws[j].sessions[sid])
  {
    if j > 0 {
      if sid !in r.ws[j - 1].sessions {
        NewSession(r, j - 1, sid);
      } else {
        TlsStaysSound(r, j - 1, sid);
        OwnStep(r, j - 1, sid);
        if Turns(r, j - 1, sid) {
          TlsTurn(r.cfg, r.ws[j - 1].store, r.ws[j - 1].sessions[sid], r.ev[j - 1].sent, r.ev[j - 1].io);
        }
      }
    }
  }

  /** TLS, once active, stays active. */
  lemma {:induction false} TlsNeverReverts(r: Run, i: nat, j: nat, sid: nat)
    requires IsRun(r) && i <= j <= |r.ev| && sid in r.ws[i].sessions && r.ws[i].sessions[sid].tls
    ensures sid in r.ws[j].sessions && r.ws[j].sessions[sid].tls
    decreases j
  {
    if i < j {
      TlsNeverReverts(r, i, j - 1, sid);
      TlsStaysSound(r, j - 1, sid);
      OwnStep(r, j - 1, sid);
      if Turns(r, j - 1, sid) {
        TlsTurn(r.cfg, r.ws[j - 1].store, r.ws[j - 1].sessions[sid], r.ev[j - 1].sent, r.ev[j - 1].io);
      }
    }
  }

  /** The switch to TLS that STARTTLS asked for is made at event j. */
  predicate SwitchesAt(r: Run, j: nat, sid: nat)
    requires j < |r.ev| <= |r.ws|
  {
    Turns(r, j, sid) && r.ws[j].sessions[sid].switchTls && r.ev[j].io.tlsOk
  }

  /** A switch never happens while authenticated, and the command after it, if one comes, starts on TLS
      without a selected group or article. */
  lemma SwitchIsClean(r: Run, j: nat, sid: nat)
    requires IsRun(r) && j < |r.ev| && SwitchesAt(r, j, sid)
    ensures !(r.cfg.useAuth && r.ws[j].sessions[sid].auth) && !r.ws[j].sessions[sid].tls
    ensures Runs(r, j, sid) <==> CommandLine(r.ev[j].sent).Some?
    ensures Ready(r.ws[j].sessions[sid], r.ev[j].io)
            == r.ws[j].sessions[sid].(switchTls := false, tls := true, group := None, article := None)
    ensures sid in r.ws[j + 1].sessions && r.ws[j + 1].sessions[sid].tls
  {
    TlsStaysSound(r, j, sid);
    OwnStep(r, j, sid);
    TlsTurn(r.cfg, r.ws[j].store, r.ws[j].sessions[sid], r.ev[j].sent, r.ev[j].io);
  }

  lemma SwitchesOnce(r: Run, i: nat, j: nat, sid: nat)
    requires IsRun(r) && i < |r.ev| && j < |r.ev| && SwitchesAt(r, i, sid) && SwitchesAt(r, j, sid)
    ensures i == j
  {
    if i < j {
      SwitchIsClean(r, i, sid);
      TlsNeverReverts(r, i + 1, j, sid);
      SwitchIsClean(r, j, sid);
    } else if j < i {
      SwitchIsClean(r, j, sid);
      TlsNeverReverts(r, j + 1, i, sid);
      SwitchIsClean(r, i, sid);
    }
  }
}
