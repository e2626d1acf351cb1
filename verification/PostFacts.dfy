/** What every POST keeps and what an accepted one achieves. */
module PostFacts {
  import opened CStrings
  import opened Delivery
  import opened Tables
  import opened Post
  import LineLookup
  import Receive

  // ---------- The invariant of the store ----------

  ghost predicate Issued(id: string, counter: nat) {
    exists n: nat, host :: 1 <= n <= counter && id == MessageId(n, host)
  }

  ghost predicate FileIssued(f: string, counter: nat) {
    exists n: nat, host :: 1 <= n <= counter && f == FileName(MessageId(n, host))
  }

  /** All ids in use carry a number the counter has already passed. */
  ghost predicate IdsIssued(st: Store) {
    && (forall m :: m in st.db.postings ==> Issued(m, st.counter) && FileName(m) in st.bodies)
    && (forall f :: f in st.bodies ==> FileIssued(f, st.counter))
  }

  ghost predicate StoreInv(st: Store) {
    Numbered(st.db) && IdsIssued(st)
  }

  /** A new id has never been used: no posting and no body file stands in its way. */
  lemma NewIdIsFresh(st: Store, host: string)
    requires IdsIssued(st)
    ensures var id := MessageId(st.counter + 1, host);
            id !in st.db.postings && FileName(id) !in st.bodies && !Issued(id, st.counter)
  {
    var id := MessageId(st.counter + 1, host);
    if Issued(id, st.counter) {
      var n: nat, h :| 1 <= n <= st.counter && id == MessageId(n, h);
      IdsAreInjective(n, h, st.counter + 1, host);
    }
    if FileName(id) in st.bodies {
      var n: nat, h :| 1 <= n <= st.counter && FileName(id) == FileName(MessageId(n, h));
      IdsAreInjective(n, h, st.counter + 1, host);
    }
  }

  lemma IssuedLater(id: string, counter: nat, later: nat)
    requires Issued(id, counter) && counter <= later
    ensures Issued(id, later)
  {
    var n: nat, h :| 1 <= n <= counter && id == MessageId(n, h);
    assert 1 <= n <= later && id == MessageId(n, h);
  }

  lemma FileIssuedLater(f: string, counter: nat, later: nat)
    requires FileIssued(f, counter) && counter <= later
    ensures FileIssued(f, later)
  {
    var n: nat, h :| 1 <= n <= counter && f == FileName(MessageId(n, h));
    assert 1 <= n <= later && f == FileName(MessageId(n, h));
  }

  // ---------- What happens to messages already there ----------

  /** Messages with numbers up to the counter only ever lose rows: nothing of theirs is changed,
      added or brought back, and body files stay. */
  ghost predicate OnlyLoses(st: Store, st': Store) {
    && st.counter <= st'.counter
    && (forall m :: m in st'.db.postings && Issued(m, st.counter) ==>
          m in st.db.postings && st'.db.postings[m] == st.db.postings[m])
    && (forall k :: k in st'.db.ngposts && Issued(k.msgid, st.counter) ==>
          k in st.db.ngposts && st'.db.ngposts[k] == st.db.ngposts[k])
    && (forall f :: f in st.bodies ==> f in st'.bodies && st'.bodies[f] == st.bodies[f])
  }

  lemma OnlyLosesTransitive(a: Store, b: Store, c: Store)
    requires OnlyLoses(a, b) && OnlyLoses(b, c)
    ensures OnlyLoses(a, c)
  {
    forall m | Issued(m, a.counter) ensures Issued(m, b.counter) {
      IssuedLater(m, a.counter, b.counter);
    }
  }

  /** The delivery loop adds rows of its own message only and touches nothing but rows and
      counters. */
  lemma {:induction false} DeliverTouches(db: Db, m: string, names: seq<string>, p: Policy, held: seq<string>)
    requires AllExist(db, names)
    ensures var db' := Deliver(db, m, names, p, held).0;
            && db'.postings == db.postings && db'.groups.Keys == db.groups.Keys
            && (forall k: Key :: k.msgid != m ==> (k in db'.ngposts <==> k in db.ngposts))
            && (forall k :: k in db.ngposts ==> k in db'.ngposts && db'.ngposts[k] == db.ngposts[k])
            && (forall k :: k in db'.ngposts && k !in db.ngposts ==> k.msgid == m && k.ng in names)
            && db' == db.(groups := db'.groups, ngposts := db'.ngposts)
            && (forall g :: g in db.groups ==> db'.groups[g].pflag == db.groups[g].pflag
                                               && db'.groups[g].high >= db.groups[g].high)
    decreases |names|
  {
    if names != [] {
      var next := DeliverTo(db, m, names[0], p, held);
      assert names[0] in names && forall x :: x in names[1..] ==> x in names;
      if next.On? {
        DeliverTouches(next.db, m, names[1..], p, next.held);
      }
    }
  }

  /** The tables when the delivery loop starts. */
  function WithPosting(st: Store, env: Env, header: string, body: string, ngstrp: string): Db
    requires |body| >= 3
  {
    var id := MessageId(st.counter + 1, env.host);
    st.db.(postings := st.db.postings[id := PostingOf(env, id, header, body, ngstrp)])
  }

  /** With fresh ids the insert into postings never meets its key. */
  lemma StoredUnfolds(st: Store, p: Policy, env: Env, header: string, body: string, ngstrp: string)
    requires StoreInv(st) && |body| >= 3 && AllExist(st.db, Tokens(ngstrp))
    requires env.counterOk && env.clockOk
    ensures var id := MessageId(st.counter + 1, env.host);
            var (db', ending) := Deliver(WithPosting(st, env, header, body, ngstrp), id, Tokens(ngstrp), p, []);
            Stored(st, p, env, header, body, ngstrp)
            == (Store(db', st.bodies[FileName(id) := body], st.counter + 1),
                if ending == Done then Answered(240) else Killed)
  {
    NewIdIsFresh(st, env.host);
  }

  lemma CounterMoves(st: Store)
    requires StoreInv(st)
    ensures StoreInv(st.(counter := st.counter + 1)) && OnlyLoses(st, st.(counter := st.counter + 1))
  {
    IssuedByLater(st, st.(counter := st.counter + 1));
  }

  lemma IssuedByLater(st: Store, st': Store)
    requires IdsIssued(st) && st.counter <= st'.counter
    ensures forall m :: m in st.db.postings ==> Issued(m, st'.counter)
    ensures forall f :: f in st.bodies ==> FileIssued(f, st'.counter)
  {
    forall m | m in st.db.postings ensures Issued(m, st'.counter) {
      IssuedLater(m, st.counter, st'.counter);
    }
    forall f | f in st.bodies ensures FileIssued(f, st'.counter) {
      FileIssuedLater(f, st.counter, st'.counter);
    }
  }

  lemma WithPostingNumbered(st: Store, env: Env, header: string, body: string, ngstrp: string)
    requires StoreInv(st) && |body| >= 3
    ensures Numbered(WithPosting(st, env, header, body, ngstrp))
  {
    var db := WithPosting(st, env, header, body, ngstrp);
    assert db.ngposts == st.db.ngposts && db.groups == st.db.groups;
    forall g, n: nat | g in db.groups && 1 <= n <= db.groups[g].high ensures Has(db, g, n) {
      assert Has(st.db, g, n);
      var x :| Row(st.db, x, g, n);
      assert Row(db, x, g, n);
    }
  }

  lemma StoredKeeps(st: Store, p: Policy, env: Env, header: string, body: string, ngstrp: string)
    requires StoreInv(st) && |body| >= 3 && AllExist(st.db, Tokens(ngstrp))
    requires env.counterOk && env.clockOk
    ensures var st' := Stored(st, p, env, header, body, ngstrp).0;
            StoreInv(st') && OnlyLoses(st, st')
  {
    var st', id := Stored(st, p, env, header, body, ngstrp).0, MessageId(st.counter + 1, env.host);
    var db := WithPosting(st, env, header, body, ngstrp);
    StoredUnfolds(st, p, env, header, body, ngstrp);
    NewIdIsFresh(st, env.host);
    WithPostingNumbered(st, env, header, body, ngstrp);
    DeliverNumbered(db, id, Tokens(ngstrp), p, []);
    DeliverTouches(db, id, Tokens(ngstrp), p, []);
    IssuedByLater(st, st');
    assert Issued(id, st'.counter) && FileIssued(FileName(id), st'.counter);
  }

  lemma StoredAlwaysKeeps(st: Store, p: Policy, env: Env, header: string, body: string, ngstrp: string)
    requires StoreInv(st) && |body| >= 3 && AllExist(st.db, Tokens(ngstrp))
    ensures var st' := Stored(st, p, env, header, body, ngstrp).0;
            StoreInv(st') && OnlyLoses(st, st')
  {
    if env.counterOk {
      if env.clockOk { StoredKeeps(st, p, env, header, body, ngstrp); } else { CounterMoves(st); }
    }
  }

  /** Every POST, accepted, refused or cut off partway, keeps the invariant of the store. */
  lemma PostKeeps(rules: Rules, st: Store, p: Policy, env: Env)
    requires StoreInv(st)
    ensures StoreInv(Posted(rules, st, p, env).0) && OnlyLoses(st, Posted(rules, st, p, env).0)
  {
    match Screen(rules, st.db, env)
    case Refused(outcome) =>
    case Passed(header, body, ngstrp) =>
      PassedAlways(rules, st.db, env);
      StoredAlwaysKeeps(st, p, env, header, body, ngstrp);
  }

  lemma PassedAlways(rules: Rules, db: Db, env: Env)
    requires Screen(rules, db, env).Passed?
    ensures var Passed(h, b, ng) := Screen(rules, db, env);
            EndsWith(h, CRLF) && EndsWith(b, ".\r\n") && |b| < rules.maxPostSize
            && (forall x :: x in Tokens(ng) ==> MayPost(db, x)) && AllExist(db, Tokens(ng))
  {
    if rules.maxPostSize == 0 { NoBufferNoPosting(rules, db, env); }
    PassedFacts(rules, db, env);
  }

  /** A POST leaves users, roles and ACLs alone, and lets no group disappear or shrink. */
  ghost predicate OnlyGrows(db: Db, db': Db) {
    && db'.users == db.users && db'.roles == db.roles && db'.userRoles == db.userRoles
    && db'.aclUsers == db.aclUsers && db'.aclRoles == db.aclRoles
    && db'.groups.Keys == db.groups.Keys
    && (forall g :: g in db.groups ==> db'.groups[g].high >= db.groups[g].high)
  }

  lemma StoredOnlyGrows(st: Store, p: Policy, env: Env, header: string, body: string, ngstrp: string)
    requires |body| >= 3 && AllExist(st.db, Tokens(ngstrp))
    ensures OnlyGrows(st.db, Stored(st, p, env, header, body, ngstrp).0.db)
  {
    DeliverTouches(WithPosting(st, env, header, body, ngstrp), MessageId(st.counter + 1, env.host),
                   Tokens(ngstrp), p, []);
  }

  lemma PostOnlyGrows(rules: Rules, st: Store, p: Policy, env: Env)
    ensures OnlyGrows(st.db, Posted(rules, st, p, env).0.db)
  {
    var s := Screen(rules, st.db, env);
    if s.Passed? {
      PassedAlways(rules, st.db, env);
      StoredOnlyGrows(st, p, env, s.header, s.body, s.ngstrp);
    }
  }

  /** One POST takes at most one number. */
  lemma PostCounts(rules: Rules, st: Store, p: Policy, env: Env)
    ensures var n := Posted(rules, st, p, env).0.counter; n == st.counter || n == st.counter + 1
  {
    if Screen(rules, st.db, env).Passed? {
      PassedAlways(rules, st.db, env);
    }
  }

  // ---------- All or nothing ----------

  /** One name in the comma list that is missing or closed, and the POST changes no table, no
      counter and no body file. */
  lemma RefusalIsTotal(rules: Rules, st: Store, p: Policy, env: Env, header: string, body: string, ngstrp: string)
    requires Receive.Outcome([], env.chunks, rules.maxPostSize).Complete?
    requires Receive.SplitArticle(Receive.Outcome([], env.chunks, rules.maxPostSize).text)
             == Receive.Parts(header, body)
    requires LineLookup.LineValue(header, "Newsgroups:") == Some(ngstrp)
    requires exists x :: x in Tokens(ngstrp) && !MayPost(st.db, x)
    ensures Posted(rules, st, p, env) == (st, Answered(411)) || Posted(rules, st, p, env) == (st, Answered(441))
  {
    NameErrorIff(st.db, Tokens(ngstrp));
    NameErrorCodes(st.db, Tokens(ngstrp));
  }

  /** Otherwise every group that gains a row was named, existed and was open to posting. */
  lemma RowsGained(rules: Rules, st: Store, p: Policy, env: Env)
    ensures forall k :: k in Posted(rules, st, p, env).0.db.ngposts && k !in st.db.ngposts ==>
              && Screen(rules, st.db, env).Passed? && MayPost(st.db, k.ng)
              && k.ng in Tokens(Screen(rules, st.db, env).ngstrp)
  {
    var s := Screen(rules, st.db, env);
    if s.Passed? {
      PassedAlways(rules, st.db, env);
      StoredGains(st, p, env, s.header, s.body, s.ngstrp);
    }
  }

  lemma StoredGains(st: Store, p: Policy, env: Env, header: string, body: string, ngstrp: string)
    requires |body| >= 3 && AllExist(st.db, Tokens(ngstrp))
    ensures forall k :: k in Stored(st, p, env, header, body, ngstrp).0.db.ngposts && k !in st.db.ngposts ==>
              k.ng in Tokens(ngstrp)
  {
    DeliverTouches(WithPosting(st, env, header, body, ngstrp), MessageId(st.counter + 1, env.host),
                   Tokens(ngstrp), p, []);
  }

  lemma {:induction false} NameErrorCodes(db: Db, names: seq<string>)
    ensures NameError(db, names).Some? ==> NameError(db, names).value == 411 || NameError(db, names).value == 441
  {
    if names != [] {
      NameErrorCodes(db, names[1..]);
    }
  }

  // ---------- An accepted POST ----------

  /** What 240 means: the message is there under a new id, with its body file and its row in every
      permitted group of the list, each as that group's next number, and nothing else changed. */
  lemma Accepted(rules: Rules, st: Store, p: Policy, env: Env)
    requires StoreInv(st) && Posted(rules, st, p, env).1 == Answered(240)
    ensures Screen(rules, st.db, env).Passed?
    ensures var Passed(header, body, ngstrp) := Screen(rules, st.db, env);
            var id := MessageId(st.counter + 1, env.host);
            var S := set g | g in Tokens(ngstrp) && Permitted(st.db, p, g);
            && EndsWith(body, ".\r\n") && (forall g :: g in S ==> g in st.db.groups)
            && Posted(rules, st, p, env).0
               == Store(Received(WithPosting(st, env, header, body, ngstrp), id, S),
                        st.bodies[FileName(id) := body], st.counter + 1)
  {
    NoEarly240(rules, st.db, env);
    PassedAlways(rules, st.db, env);
    var Passed(header, body, ngstrp) := Screen(rules, st.db, env);
    AcceptedDelivery(st, p, env, header, body, ngstrp);
  }

  /** When the checks have passed and no resource fails, the reply is 240 exactly when every repeat
      among the permitted names is caught and no counter is full; otherwise the connection dies. */
  lemma ReplyIs240Iff(st: Store, p: Policy, env: Env, header: string, body: string, ngstrp: string)
    requires StoreInv(st) && |body| >= 3 && AllExist(st.db, Tokens(ngstrp)) && env.counterOk && env.clockOk
    ensures AllExist(st.db, PermittedOnly(st.db, Tokens(ngstrp), p))
    ensures var ns := PermittedOnly(st.db, Tokens(ngstrp), p);
            Stored(st, p, env, header, body, ngstrp).1
            == if RepeatsCaught(ns) && RoomFor(st.db, ns) then Answered(240) else Killed
  {
    var db, id := WithPosting(st, env, header, body, ngstrp), MessageId(st.counter + 1, env.host);
    StoredUnfolds(st, p, env, header, body, ngstrp);
    NewIdIsFresh(st, env.host);
    CrosspostExactlyOnce(db, id, Tokens(ngstrp), p);
    SamePermits(st.db, db, Tokens(ngstrp), p);
    SameRoom(st.db, db, PermittedOnly(db, Tokens(ngstrp), p));
  }

  lemma SameRoom(db: Db, db': Db, ns: seq<string>)
    requires AllExist(db', ns) && db.groups == db'.groups
    ensures AllExist(db, ns) && (RoomFor(db, ns) <==> RoomFor(db', ns))
  {
    if RoomFor(db, ns) {
      forall i | 0 <= i < |ns| ensures !Full(db', ns, i) { assert !Full(db, ns, i); }
    }
    if RoomFor(db', ns) {
      forall i | 0 <= i < |ns| ensures !Full(db, ns, i) { assert !Full(db', ns, i); }
    }
  }

  lemma AcceptedDelivery(st: Store, p: Policy, env: Env, header: string, body: string, ngstrp: string)
    requires StoreInv(st) && |body| >= 3 && AllExist(st.db, Tokens(ngstrp))
    requires Stored(st, p, env, header, body, ngstrp).1 == Answered(240)
    ensures var id := MessageId(st.counter + 1, env.host);
            var S := set g | g in Tokens(ngstrp) && Permitted(st.db, p, g);
            && (forall g :: g in S ==> g in st.db.groups)
            && Stored(st, p, env, header, body, ngstrp).0
               == Store(Received(WithPosting(st, env, header, body, ngstrp), id, S),
                        st.bodies[FileName(id) := body], st.counter + 1)
  {
    var db := WithPosting(st, env, header, body, ngstrp);
    StoredUnfolds(st, p, env, header, body, ngstrp);
    NewIdIsFresh(st, env.host);
    DeliveredToAll(db, MessageId(st.counter + 1, env.host), Tokens(ngstrp), p);
    assert forall g :: Permitted(db, p, g) <==> Permitted(st.db, p, g);
    assert (set g | g in Tokens(ngstrp) && Permitted(db, p, g))
           == set g | g in Tokens(ngstrp) && Permitted(st.db, p, g);
  }

  /** A loop that runs to its end has served exactly the permitted groups of the list. */
  lemma DeliveredToAll(db: Db, m: string, names: seq<string>, p: Policy)
    requires AllExist(db, names) && Fresh(db, m) && Deliver(db, m, names, p, []).1 == Done
    ensures var S := set g | g in names && Permitted(db, p, g);
            (forall g :: g in S ==> g in db.groups) && Deliver(db, m, names, p, []).0 == Received(db, m, S)
  {
    CrosspostExactlyOnce(db, m, names, p);
    PermittedOnes(db, names, p);
    var ns := PermittedOnly(db, names, p);
    assert ns[..FirstStop(db, ns, 0)] == ns;
    assert Elems(ns) == set g | g in names && Permitted(db, p, g);
  }

  lemma NoEarly240(rules: Rules, db: Db, env: Env)
    ensures Screen(rules, db, env).Refused? ==> Screen(rules, db, env).outcome != Answered(240)
  {
    var s := Screen(rules, db, env);
    if s.Refused? && s.outcome == Answered(240) {
      var text := Receive.Outcome([], env.chunks, rules.maxPostSize).text;
      var header := Receive.SplitArticle(text).header;
      NameErrorCodes(db, Tokens(LineLookup.LineValue(header, "Newsgroups:").value));
    }
  }
}
