/** The whole server: one store, many sessions and the administration tool, in any interleaving of
    their commands.  Each command is one atomic step. */
module System {
  import opened CStrings
  import opened Tables
  import opened Delivery
  import opened Post
  import opened PostFacts
  import opened Reading
  import opened CommandReader
  import opened Session
  import opened SessionFacts
  import opened Admin
  import HeaderEdit

  datatype World = World(store: Store, sessions: map<nat, Conn>)

  datatype Event =
    | Opens(sid: nat, starttls: bool, tls: bool)
    | Sends(sid: nat, sent: string, io: Io)
    | Administers(cmd: AdminCmd)

  const START := World(Store(EMPTY, map[], 0), map[])

  ghost function StepReply(cfg: Config, w: World, e: Event): (World, Reply) {
    match e
    case Opens(sid, starttls, tls) =>
      (if sid in w.sessions then w else w.(sessions := w.sessions[sid := Opened(cfg, starttls, tls)]), Other)
    case Sends(sid, sent, io) =>
      if sid !in w.sessions || !w.sessions[sid].alive then (w, Gone)
      else
        var (st, c, reply) := Serve(cfg, w.store, w.sessions[sid], sent, io);
        (World(st, w.sessions[sid := c]), reply)
    case Administers(cmd) =>
      (w.(store := w.store.(db := Administered(cfg.hash, w.store.db, cmd))), Other)
  }

  ghost function Step(cfg: Config, w: World, e: Event): World {
    StepReply(cfg, w, e).0
  }

  /** A run: the events, the world before the first and after each of them, and the replies. */
  datatype Run = Run(cfg: Config, ev: seq<Event>, ws: seq<World>, replies: seq<Reply>)

  ghost predicate Linked(r: Run, j: nat)
    requires j < |r.ev| == |r.replies| && |r.ws| == |r.ev| + 1
  {
    (r.ws[j + 1], r.replies[j]) == StepReply(r.cfg, r.ws[j], r.ev[j])
  }

  ghost predicate IsRun(r: Run) {
    && |r.ws| == |r.ev| + 1 && |r.replies| == |r.ev| && r.ws[0] == START
    && forall j :: 0 <= j < |r.ev| ==> Linked(r, j)
  }

  /** Every list of events has its run. */
  lemma {:induction false} RunOf(cfg: Config, ev: seq<Event>) returns (r: Run)
    ensures IsRun(r) && r.cfg == cfg && r.ev == ev
  {
    if ev == [] {
      return Run(cfg, ev, [START], []);
    }
    var n := |ev| - 1;
    var before := RunOf(cfg, ev[..n]);
    var (w, reply) := StepReply(cfg, before.ws[n], ev[n]);
    r := Run(cfg, ev, before.ws + [w], before.replies + [reply]);
    forall j | 0 <= j < |ev| ensures Linked(r, j) {
      assert j < n ==> Linked(before, j);
    }
  }

  /** Event j is a command that session sid gets to run. */
  ghost predicate Runs(r: Run, j: nat, sid: nat)
    requires IsRun(r) && j < |r.ev|
  {
    && r.ev[j].Sends? && r.ev[j].sid == sid && sid in r.ws[j].sessions
    && r.ws[j].sessions[sid].alive && Ready(r.ws[j].sessions[sid], r.ev[j].io).alive
    && CommandLine(r.ev[j].sent).Some?
  }

  /** The connection that runs it. */
  ghost function Runner(r: Run, j: nat, sid: nat): Conn
    requires IsRun(r) && j < |r.ev| && Runs(r, j, sid)
  {
    Ready(r.ws[j].sessions[sid], r.ev[j].io)
  }

  /** The line it runs. */
  ghost function LineAt(r: Run, j: nat, sid: nat): string
    requires IsRun(r) && j < |r.ev| && Runs(r, j, sid)
  {
    CommandLine(r.ev[j].sent).value
  }

  /** The handler it reaches. */
  ghost function Handler(r: Run, j: nat, sid: nat): Option<Session.Command>
    requires IsRun(r) && j < |r.ev| && Runs(r, j, sid)
  {
    Reached(r.cfg, Runner(r, j, sid), LineAt(r, j, sid))
  }

  // ---------- The store over runs ----------

  lemma AdminKeepsStore(cfg: Config, st: Store, cmd: AdminCmd)
    requires StoreInv(st)
    ensures var st' := st.(db := Administered(cfg.hash, st.db, cmd));
            StoreInv(st') && OnlyLoses(st, st')
  {
    AdminKeepsNumbers(cfg.hash, st.db, cmd);
  }

  lemma StepKeeps(cfg: Config, w: World, e: Event)
    requires StoreInv(w.store) && AclSound(w.store.db)
    ensures StoreInv(Step(cfg, w, e).store) && AclSound(Step(cfg, w, e).store.db)
    ensures OnlyLoses(w.store, Step(cfg, w, e).store)
  {
    match e
    case Opens(_, _, _) =>
    case Sends(sid, sent, io) =>
      if sid in w.sessions {
        var c := w.sessions[sid];
        ServeKeepsStore(cfg, w.store, c, sent, io);
        ServeOnlyGrows(cfg, w.store, c, sent, io);
        SameAcl(w.store.db, Serve(cfg, w.store, c, sent, io).0.db);
      }
    case Administers(cmd) =>
      AdminKeepsStore(cfg, w.store, cmd);
      AdminKeepsAcl(cfg.hash, w.store.db, cmd);
  }

  lemma SameAcl(db: Db, db': Db)
    requires AclSound(db) && OnlyGrows(db, db')
    ensures AclSound(db')
  {
    forall grant | HasGrant(db', grant) ensures SubjectsExist(db', grant) {
      assert HasGrant(db, grant);
    }
  }

  /** One event of a run. */
  lemma EventKeeps(r: Run, j: nat)
    requires IsRun(r) && j < |r.ev|
    requires StoreInv(r.ws[j].store) && AclSound(r.ws[j].store.db)
    ensures StoreInv(r.ws[j + 1].store) && AclSound(r.ws[j + 1].store.db)
    ensures OnlyLoses(r.ws[j].store, r.ws[j + 1].store)
  {
    assert Linked(r, j);
    StepKeeps(r.cfg, r.ws[j], r.ev[j]);
  }

  /** In every reachable state the numbers of each group are exactly 1..high, used once each, every
      row has its posting and group, every id in use was issued, and no ACL row dangles. */
  lemma {:induction false} ReachableIsSound(r: Run, j: nat)
    requires IsRun(r) && j <= |r.ev|
    ensures StoreInv(r.ws[j].store) && AclSound(r.ws[j].store.db)
  {
    if j > 0 {
      ReachableIsSound(r, j - 1);
      EventKeeps(r, j - 1);
    }
  }

  /** Between any two moments of a run, messages already numbered only lose rows. */
  lemma {:induction false} RunOnlyLoses(r: Run, i: nat, j: nat)
    requires IsRun(r) && i <= j <= |r.ev|
    ensures OnlyLoses(r.ws[i].store, r.ws[j].store)
    decreases j
  {
    if i < j {
      RunOnlyLoses(r, i, j - 1);
      ReachableIsSound(r, j - 1);
      EventKeeps(r, j - 1);
      OnlyLosesTransitive(r.ws[i].store, r.ws[j - 1].store, r.ws[j].store);
    }
  }

  // ---------- Accepted articles over runs ----------

  /** What a POST handled at event i does to the store and answers. */
  ghost function PostAt(r: Run, i: nat, sid: nat): (Store, Answer)
    requires IsRun(r) && i < |r.ev| && Runs(r, i, sid)
  {
    Posted(r.cfg.rules, r.ws[i].store, PolicyOf(r.cfg, Runner(r, i, sid)), r.ev[i].io.post)
  }

  /** Event i is answered with 240. */
  ghost predicate AcceptedAt(r: Run, i: nat, sid: nat)
    requires IsRun(r) && i < |r.ev|
  {
    Runs(r, i, sid) && r.replies[i] == Line(240)
  }

  /** Only an accepted POST is answered with 240. */
  lemma AcceptedStep(r: Run, i: nat, sid: nat)
    requires IsRun(r) && i < |r.ev| && AcceptedAt(r, i, sid)
    ensures Handler(r, i, sid) == Some(PostArticle)
    ensures PostAt(r, i, sid) == (r.ws[i + 1].store, Answered(240))
  {
    assert Linked(r, i);
    Only240(r.cfg, r.ws[i].store, Runner(r, i, sid), LineAt(r, i, sid), r.ev[i].io);
  }

  lemma Only240(cfg: Config, st: Store, c: Conn, line: string, io: Io)
    requires DoCommand(cfg, st, c, line, io).2 == Line(240)
    ensures Reached(cfg, c, line) == Some(PostArticle)
    ensures (DoCommand(cfg, st, c, line, io).0, Answered(240)) == Posted(cfg.rules, st, PolicyOf(cfg, c), io.post)
  {
    var cmd := Reached(cfg, c, line);
    if cmd.Some? && cmd != Some(PostArticle) {
      OthersNever240(cfg, st, c, cmd.value, line, io);
    }
  }

  /** The header stored for an accepted POST: the server's lines and the edited client header. */
  function StoredHeader(env: Env, id: string, header: string, body: string): string
    requires |body| >= 3
  {
    Printed(OwnLines(env, id, BodyLines(body), |body|), 0x7fd) + HeaderEdit.EditHeader(header)
  }

  /** What its article looks like when it is read. */
  function ArticleText(env: Env, id: string, header: string, body: string): string
    requires |body| >= 3
  {
    StoredHeader(env, id, header, body) + CRLF + body
  }

  /** What a later store still says of a message accepted earlier. */
  ghost predicate KeptWhole(rules: Rules, before: Store, p: Policy, env: Env, now: Store, id: string, g: string, n: nat)
    requires Screen(rules, before.db, env).Passed?
  {
    var Passed(header, body, ngstrp) := Screen(rules, before.db, env);
    && EndsWith(body, ".\r\n")
    && g in Tokens(ngstrp) && Permitted(before.db, p, g)
    && g in before.db.groups && n == before.db.groups[g].high + 1
    && MessageAt(now.db, g, n) == Some(id)
    && Shown(now, 'b', n, id) == Status('b', n, id) + body
    && Shown(now, 'h', n, id) == Status('h', n, id) + (StoredHeader(env, id, header, body) + ".\r\n")
    && Shown(now, 'a', n, id) == Status('a', n, id) + ArticleText(env, id, header, body)
  }

  /** The message right after it was accepted. */
  lemma AcceptedRow(rules: Rules, before: Store, p: Policy, env: Env, g: string)
    requires StoreInv(before) && Posted(rules, before, p, env).1 == Answered(240)
    ensures Screen(rules, before.db, env).Passed?
    ensures var Passed(header, body, ngstrp) := Screen(rules, before.db, env);
            var after, id := Posted(rules, before, p, env).0, MessageId(before.counter + 1, env.host);
            && EndsWith(body, ".\r\n") && Issued(id, after.counter)
            && id in after.db.postings && after.db.postings[id] == PostingOf(env, id, header, body, ngstrp)
            && FileName(id) in after.bodies && after.bodies[FileName(id)] == body
            && (Key(id, g) in after.db.ngposts ==>
                  && g in Tokens(ngstrp) && Permitted(before.db, p, g)
                  && g in before.db.groups && after.db.ngposts[Key(id, g)] == before.db.groups[g].high + 1)
  {
    Accepted(rules, before, p, env);
    NewIdIsFresh(before, env.host);
    assert Key(MessageId(before.counter + 1, env.host), g) !in before.db.ngposts;
  }

  lemma AcceptedStays(rules: Rules, before: Store, p: Policy, env: Env, after: Store, now: Store, id: string, g: string,
                      n: nat)
    requires StoreInv(before) && Posted(rules, before, p, env).0 == after
    requires Posted(rules, before, p, env).1 == Answered(240) && OnlyLoses(after, now) && StoreInv(now)
    requires id == MessageId(before.counter + 1, env.host) && Row(now.db, id, g, n)
    ensures Screen(rules, before.db, env).Passed? && KeptWhole(rules, before, p, env, now, id, g, n)
  {
    AcceptedRow(rules, before, p, env, g);
    var Passed(header, body, ngstrp) := Screen(rules, before.db, env);
    assert Key(id, g) in now.db.ngposts && id in now.db.postings;
    MessageAtIs(now.db, g, n, id);
    ShownText(now, n, id, env, header, body, ngstrp);
  }

  lemma AcceptedStore(r: Run, i: nat, sid: nat)
    requires IsRun(r) && i < |r.ev| && AcceptedAt(r, i, sid)
    ensures var p, env := PolicyOf(r.cfg, Runner(r, i, sid)), r.ev[i].io.post;
            && Posted(r.cfg.rules, r.ws[i].store, p, env).0 == r.ws[i + 1].store
            && Posted(r.cfg.rules, r.ws[i].store, p, env).1 == Answered(240)
  {
    AcceptedStep(r, i, sid);
  }

  /** The stored article survives every run: while its row is in the group it keeps the number it
      was given, it is the only article of that number, BODY shows byte for byte what followed the
      blank line, HEAD the server's lines, the edited header and the dot line, and ARTICLE these lines
      and that header, CRLF and that body. */
  lemma StoredArticleRoundTrip(r: Run, i: nat, j: nat, sid: nat, g: string, n: nat)
    requires IsRun(r) && i < j <= |r.ev| && AcceptedAt(r, i, sid)
    requires Row(r.ws[j].store.db, MessageId(r.ws[i].store.counter + 1, r.ev[i].io.post.host), g, n)
    ensures Screen(r.cfg.rules, r.ws[i].store.db, r.ev[i].io.post).Passed?
    ensures KeptWhole(r.cfg.rules, r.ws[i].store, PolicyOf(r.cfg, Runner(r, i, sid)), r.ev[i].io.post,
                      r.ws[j].store, MessageId(r.ws[i].store.counter + 1, r.ev[i].io.post.host), g, n)
  {
    var before, after, now := r.ws[i].store, r.ws[i + 1].store, r.ws[j].store;
    var p, env := PolicyOf(r.cfg, Runner(r, i, sid)), r.ev[i].io.post;
    Moments(r, i, j);
    AcceptedStore(r, i, sid);
    AcceptedStays(r.cfg.rules, before, p, env, after, now, MessageId(before.counter + 1, env.host), g, n);
  }

  lemma Moments(r: Run, i: nat, j: nat)
    requires IsRun(r) && i < j <= |r.ev|
    ensures StoreInv(r.ws[i].store) && StoreInv(r.ws[j].store) && OnlyLoses(r.ws[i + 1].store, r.ws[j].store)
  {
    ReachableIsSound(r, i);
    ReachableIsSound(r, j);
    RunOnlyLoses(r, i + 1, j);
  }

  lemma ShownText(st: Store, n: nat, id: string, env: Env, header: string, body: string, ngstrp: string)
    requires |body| >= 3 && id in st.db.postings && st.db.postings[id] == PostingOf(env, id, header, body, ngstrp)
    requires FileName(id) in st.bodies && st.bodies[FileName(id)] == body
    ensures Shown(st, 'b', n, id) == Status('b', n, id) + body
    ensures Shown(st, 'h', n, id) == Status('h', n, id) + (StoredHeader(env, id, header, body) + ".\r\n")
    ensures Shown(st, 'a', n, id) == Status('a', n, id) + ArticleText(env, id, header, body)
  {
  }

  predicate Apart(id: string, other: string) {
    id != other && FileName(id) != FileName(other)
  }

  predicate Unused(id: string, st: Store) {
    id !in st.db.postings && FileName(id) !in st.bodies
  }

  /** Event i takes a number for an id, whatever becomes of the POST afterwards. */
  predicate TakesNumber(r: Run, i: nat)
    requires i < |r.ev| < |r.ws|
  {
    r.ev[i].Sends? && r.ws[i + 1].store.counter != r.ws[i].store.counter
  }

  /** Only such an event moves the counter, and it moves it by one. */
  lemma CounterMovesByOne(r: Run, i: nat)
    requires IsRun(r) && i < |r.ev|
    ensures r.ws[i + 1].store.counter == r.ws[i].store.counter + if TakesNumber(r, i) then 1 else 0
  {
    assert Linked(r, i);
    StepCounts(r.cfg, r.ws[i], r.ev[i]);
  }

  lemma StepCounts(cfg: Config, w: World, e: Event)
    ensures var n := Step(cfg, w, e).store.counter;
            n == w.store.counter || (e.Sends? && n == w.store.counter + 1)
  {
    match e
    case Sends(sid, sent, io) =>
      if sid in w.sessions {
        ServeCounts(cfg, w.store, w.sessions[sid], sent, io);
      }
    case _ =>
  }

  /** Ids never repeat over a run, whatever hosts are appended and whether or not the POST they were
      taken for was accepted: the id a later command would give differs from every id given before,
      and meets no posting and no body file. */
  lemma IdsAreFresh(r: Run, i: nat, j: nat)
    requires IsRun(r) && i < j < |r.ev| && TakesNumber(r, i) && r.ev[j].Sends?
    ensures Apart(MessageId(r.ws[i].store.counter + 1, r.ev[i].io.post.host),
                  MessageId(r.ws[j].store.counter + 1, r.ev[j].io.post.host))
    ensures Unused(MessageId(r.ws[j].store.counter + 1, r.ev[j].io.post.host), r.ws[j].store)
  {
    CounterMovesByOne(r, i);
    RunOnlyLoses(r, i + 1, j);
    ReachableIsSound(r, j);
    var st := r.ws[j].store;
    LaterIdDiffers(r.ws[i].store.counter + 1, r.ev[i].io.post.host, st, r.ev[j].io.post.host);
  }

  lemma LaterIdDiffers(n: nat, host: string, st: Store, other: string)
    requires StoreInv(st) && n <= st.counter
    ensures Apart(MessageId(n, host), MessageId(st.counter + 1, other))
    ensures Unused(MessageId(st.counter + 1, other), st)
  {
    NewIdIsFresh(st, other);
    IdsAreInjective(n, host, st.counter + 1, other);
  }

  // ---------- Grants ----------

  /** The row was inserted by event k, and the user, role or group it names has existed without a
      break ever since: none of them was created later. */
  ghost predicate GrantedAt(r: Run, j: nat, k: nat, grant: Grant)
    requires IsRun(r) && j <= |r.ev|
  {
    && k < j && r.ev[k] == Administers(GrantedBy(grant))
    && forall i :: k <= i <= j ==> SubjectsExist(r.ws[i].store.db, grant)
  }

  lemma StepGrant(cfg: Config, w: World, e: Event, grant: Grant)
    requires AclSound(w.store.db) && HasGrant(Step(cfg, w, e).store.db, grant)
    ensures HasGrant(w.store.db, grant) || (e == Administers(GrantedBy(grant)) && SubjectsExist(w.store.db, grant))
  {
    match e
    case Opens(_, _, _) =>
    case Sends(sid, sent, io) =>
      if sid in w.sessions {
        ServeOnlyGrows(cfg, w.store, w.sessions[sid], sent, io);
      }
    case Administers(cmd) =>
      GrantKept(cfg.hash, w.store.db, cmd, grant);
  }

  lemma {:induction false} GrantIsYounger(r: Run, j: nat, grant: Grant) returns (k: nat)
    requires IsRun(r) && j <= |r.ev| && HasGrant(r.ws[j].store.db, grant)
    ensures GrantedAt(r, j, k, grant)
  {
    ReachableIsSound(r, j);
    assert SubjectsExist(r.ws[j].store.db, grant);
    assert j > 0;
    ReachableIsSound(r, j - 1);
    assert Linked(r, j - 1);
    StepGrant(r.cfg, r.ws[j - 1], r.ev[j - 1], grant);
    if HasGrant(r.ws[j - 1].store.db, grant) {
      k := GrantIsYounger(r, j - 1, grant);
    } else {
      k := j - 1;
    }
  }

  /** No grant outlives its subjects: whoever has access has it by rows inserted after the latest
      creation of the user, the role and the group they name. */
  lemma AccessIsYounger(r: Run, j: nat, u: string, g: string)
    requires IsRun(r) && j <= |r.ev| && Access(r.ws[j].store.db, Some(u), g)
    ensures (exists k :: GrantedAt(r, j, k, ToUser(u, g)))
            || (exists role, k, l :: GrantedAt(r, j, k, Member(u, role)) && GrantedAt(r, j, l, ToRole(role, g)))
  {
    var db := r.ws[j].store.db;
    if (u, g) in db.aclUsers {
      var k := GrantIsYounger(r, j, ToUser(u, g));
    } else {
      var ur :| ur in db.userRoles && ur.0 == u && (ur.1, g) in db.aclRoles;
      assert ur == (u, ur.1);
      var k := GrantIsYounger(r, j, Member(u, ur.1));
      var l := GrantIsYounger(r, j, ToRole(ur.1, g));
    }
  }
}
