/** Numbering of articles and the delivery loop of `docmd_post` (src/server.c): one row and one
    step of the group's counter for each new name, with a dedup list that forgets. */
module Delivery {
  import opened CStrings
  import opened CharStack
  import opened Tables

  const MAX_HIGH := 0x7fff_ffff

  // ---------- The numbering invariant ----------

  ghost predicate Has(db: Db, g: string, n: nat) {
    exists m :: Row(db, m, g, n)
  }

  ghost predicate Capped(db: Db) {
    forall g :: g in db.groups ==> db.groups[g].high <= MAX_HIGH
  }

  /** Every row has its posting, its group and a number the group has reached. */
  ghost predicate RowsSound(db: Db) {
    forall k :: k in db.ngposts ==>
      k.msgid in db.postings && k.ng in db.groups && 1 <= db.ngposts[k] <= db.groups[k.ng].high
  }

  ghost predicate NoNumberTwice(db: Db) {
    forall k, l | k in db.ngposts && l in db.ngposts ::
      k.ng == l.ng && db.ngposts[k] == db.ngposts[l] ==> k == l
  }

  ghost predicate NoNumberMissing(db: Db) {
    forall g, n: nat :: g in db.groups && 1 <= n <= db.groups[g].high ==> Has(db, g, n)
  }

  /** `high` agrees with the rows it summarises: the numbers of a group are exactly 1..high, none
      is used twice, and every row has its posting and its group. */
  ghost predicate Numbered(db: Db) {
    Capped(db) && RowsSound(db) && NoNumberTwice(db) && NoNumberMissing(db)
  }

  /** One article more in g. */
  function Added(db: Db, m: string, g: string): Db
    requires g in db.groups
  {
    var n := db.groups[g].high + 1;
    db.(ngposts := db.ngposts[Key(m, g) := n], groups := db.groups[g := db.groups[g].(high := n)])
  }

  lemma AddedNumbered(db: Db, m: string, g: string)
    requires Numbered(db) && g in db.groups && m in db.postings
    requires Key(m, g) !in db.ngposts && db.groups[g].high < MAX_HIGH
    ensures Numbered(Added(db, m, g))
  {
    AddedKeepsOrder(db, m, g);
    AddedMissesNone(db, m, g);
  }

  lemma AddedKeepsOrder(db: Db, m: string, g: string)
    requires RowsSound(db) && NoNumberTwice(db) && g in db.groups && Key(m, g) !in db.ngposts
    ensures NoNumberTwice(Added(db, m, g))
  {
    var db' := Added(db, m, g);
    forall k, l | k in db'.ngposts && l in db'.ngposts && k.ng == l.ng && db'.ngposts[k] == db'.ngposts[l]
      ensures k == l
    {
      assert k != Key(m, g) ==> k in db.ngposts;
      assert l != Key(m, g) ==> l in db.ngposts;
    }
  }

  lemma AddedMissesNone(db: Db, m: string, g: string)
    requires NoNumberMissing(db) && g in db.groups && Key(m, g) !in db.ngposts
    ensures NoNumberMissing(Added(db, m, g))
  {
    var db' := Added(db, m, g);
    assert Row(db', m, g, db'.groups[g].high);
    forall h, n: nat | h in db'.groups && 1 <= n <= db'.groups[h].high ensures Has(db', h, n) {
      if n <= db.groups[h].high {
        assert Has(db, h, n);
        var x :| Row(db, x, h, n);
        assert Row(db', x, h, n);
      }
    }
  }

  /** Deleting a group, with the rows and orphaned postings that go with it. */
  lemma GroupDeletedNumbered(db: Db, g: string)
    requires Numbered(db)
    ensures Numbered(GroupDeleted(db, g))
  {
    var db' := GroupDeleted(db, g);
    assert forall k :: k in db'.ngposts ==> k in db.ngposts && db'.ngposts[k] == db.ngposts[k];
    forall h, n: nat | h in db'.groups && 1 <= n <= db'.groups[h].high ensures Has(db', h, n) {
      assert Has(db, h, n);
      var x :| Row(db, x, h, n);
      assert Row(db', x, h, n);
    }
  }

  // ---------- The delivery loop ----------

  /** How the loop ends: 240, or the connection dies at the article limit or at the primary key. */
  datatype Ending = Done | LimitReached | KeyClash

  /** ACLs in force for a user, or no ACLs. */
  datatype Policy = Policy(acl: bool, user: Option<string>)

  predicate Permitted(db: Db, p: Policy, g: string) {
    p.acl ==> Access(db, p.user, g)
  }

  datatype Next = On(db: Db, held: seq<string>) | Stop(ending: Ending)

  /** One turn of the loop. */
  function DeliverTo(db: Db, m: string, g: string, p: Policy, held: seq<string>): (next: Next)
    requires g in db.groups
    ensures next.On? ==> next.db.groups.Keys == db.groups.Keys
  {
    if !Permitted(db, p, g) then On(db, held)
    else if db.groups[g].high > 0x7fff_fffe then Stop(LimitReached)
    else if g in held then On(db, held)
    else if Key(m, g) in db.ngposts then Stop(KeyClash)
    else On(Added(db, m, g), Pushed(held, g))
  }

  predicate AllExist(db: Db, names: seq<string>) {
    forall i :: 0 <= i < |names| ==> names[i] in db.groups
  }

  function Deliver(db: Db, m: string, names: seq<string>, p: Policy, held: seq<string>): (Db, Ending)
    requires AllExist(db, names)
    decreases |names|
  {
    if names == [] then (db, Done)
    else
      match DeliverTo(db, m, names[0], p, held)
      case Stop(ending) => (db, ending)
      case On(db', held') => Deliver(db', m, names[1..], p, held')
  }

  /** Wherever the loop ends, numbering is intact. */
  lemma {:induction false} DeliverNumbered(db: Db, m: string, names: seq<string>, p: Policy, held: seq<string>)
    requires Numbered(db) && m in db.postings && AllExist(db, names)
    ensures Numbered(Deliver(db, m, names, p, held).0)
    decreases |names|
  {
    if names != [] {
      var next := DeliverTo(db, m, names[0], p, held);
      if next.On? {
        if next.db != db {
          AddedNumbered(db, m, names[0]);
        }
        DeliverNumbered(next.db, m, names[1..], p, next.held);
      }
    }
  }

  /** One turn on the real tables and the real list. */
  method DeliverOne(db: Database, stackp: Node, m: string, g: string, p: Policy) returns (stop: Option<Ending>)
    requires stackp.Valid() && g in db.groups
    modifies db`groups, db`ngposts, stackp
    ensures stackp.Valid() && (stackp.next == old(stackp.next) || fresh(stackp.next))
    ensures var next := DeliverTo(old(db.State()), m, g, p, old(stackp.Contents()));
            match stop
            case Some(ending) => next == Stop(ending) && db.State() == old(db.State())
            case None => next == On(db.State(), stackp.Contents())
  {
    stop := None;
    if p.acl && !Access(db.State(), p.user, g) {
      return; // denied by ACL: this entry is skipped
    }
    var curHigh := db.GetHighValue(g, 0);
    if curHigh > 0x7fff_fffe {
      return Some(LimitReached);
    }
    var found := stackp.CheckFor(g);
    if !found {
      var ok := db.InsertIntoNgposts(m, g, curHigh + 1);
      if !ok {
        return Some(KeyClash);
      }
      db.UpdateHighValue(curHigh + 1, g);
      stackp.PushOn(g);
    }
  }

  /** The loop over the comma list. */
  method DeliverAll(db: Database, m: string, ngstrp: string, p: Policy) returns (ending: Ending)
    requires AllExist(db.State(), Tokens(ngstrp))
    modifies db`groups, db`ngposts
    ensures (db.State(), ending) == Deliver(old(db.State()), m, Tokens(ngstrp), p, [])
  {
    var newsgroup, saveptr := StrTok(ngstrp);
    var stackp := new Node();
    ghost var names := Tokens(ngstrp);
    ghost var answer := Deliver(db.State(), m, names, p, []);
    while newsgroup.Some?
      invariant names == if newsgroup.None? then [] else [newsgroup.value] + Tokens(saveptr)
      invariant stackp.Valid() && fresh(stackp) && (stackp.next != null ==> fresh(stackp.next))
      invariant AllExist(db.State(), names)
      invariant Deliver(db.State(), m, names, p, stackp.Contents()) == answer
      decreases |names|
    {
      assert names[0] == newsgroup.value && names[1..] == Tokens(saveptr);
      var stop := DeliverOne(db, stackp, m, newsgroup.value, p);
      if stop.Some? {
        return stop.value;
      }
      names := names[1..];
      newsgroup, saveptr := StrTok(saveptr);
    }
    return Done;
  }

  // ---------- Exactly once ----------

  /** The names the ACLs let through. */
  function PermittedOnly(db: Db, names: seq<string>, p: Policy): seq<string> {
    if names == [] then []
    else if Permitted(db, p, names[0]) then [names[0]] + PermittedOnly(db, names[1..], p)
    else PermittedOnly(db, names[1..], p)
  }

  function Elems(ns: seq<string>): set<string> {
    set x | x in ns
  }

  /** The state in which exactly the groups of S have received m, each as its next article. */
  function Received(db: Db, m: string, S: set<string>): Db
    requires forall g :: g in S ==> g in db.groups
  {
    var rows := set g | g in S :: Key(m, g);
    db.(ngposts := map k | k in db.ngposts.Keys + rows ::
                     if k in rows then db.groups[k.ng].high + 1 else db.ngposts[k],
        groups := map g | g in db.groups ::
                     if g in S then db.groups[g].(high := db.groups[g].high + 1) else db.groups[g])
  }

  /** The name that was new most recently among the first i. */
  function Latest(ns: seq<string>, i: nat): string
    requires 0 < i <= |ns|
  {
    if i == 1 || ns[i - 1] !in ns[..i - 1] then ns[i - 1] else Latest(ns, i - 1)
  }

  /** Every repeat is of the first name or of the name that was new most recently. */
  predicate RepeatsCaught(ns: seq<string>) {
    forall i :: 0 < i < |ns| && ns[i] in ns[..i] ==> ns[i] == ns[0] || ns[i] == Latest(ns, i)
  }

  /** The article limit, which is tested at repeats too. */
  predicate RoomFor(db: Db, ns: seq<string>)
    requires AllExist(db, ns)
  {
    forall i :: 0 <= i < |ns| ==> !Full(db, ns, i)
  }

  /** The counter that the name at i meets is at its limit. */
  predicate Full(db: Db, ns: seq<string>, i: nat)
    requires i < |ns| && ns[i] in db.groups
  {
    db.groups[ns[i]].high + (if ns[i] in ns[..i] then 1 else 0) > 0x7fff_fffe
  }

  /** The outcome when the i-th name is the first that does not pass. */
  function EndingAt(db: Db, ns: seq<string>, i: nat): Ending
    requires i <= |ns| && AllExist(db, ns)
  {
    if i == |ns| then Done else if Full(db, ns, i) then LimitReached else KeyClash
  }

  /** The name at i passes the limit and is either new or caught as a repeat. */
  predicate Passes(db: Db, ns: seq<string>, i: nat)
    requires i < |ns| && ns[i] in db.groups
  {
    && !Full(db, ns, i)
    && (i > 0 && ns[i] in ns[..i] ==> ns[i] == ns[0] || ns[i] == Latest(ns, i))
  }

  /** The list after the first i names went through. */
  function HeldAfter(ns: seq<string>, i: nat): seq<string>
    requires i <= |ns|
  {
    if i == 0 then []
    else if ns[i - 1] in ns[..i - 1] then HeldAfter(ns, i - 1)
    else Pushed(HeldAfter(ns, i - 1), ns[i - 1])
  }

  /** The list holds exactly the first and the latest new name. */
  lemma {:induction false} HeldIsFirstAndLatest(ns: seq<string>, i: nat)
    requires 0 < i <= |ns|
    ensures HeldAfter(ns, i) == if Latest(ns, i) == ns[0] then [ns[0]] else [ns[0], Latest(ns, i)]
  {
    if i == 1 {
      assert HeldAfter(ns, 0) == [];
    } else {
      HeldIsFirstAndLatest(ns, i - 1);
      if ns[i - 1] !in ns[..i - 1] {
        assert ns[i - 1] != ns[0] by {
          assert ns[0] == ns[..i - 1][0];
        }
      }
    }
  }

  predicate Fresh(db: Db, m: string) {
    forall k :: k in db.ngposts ==> k.msgid != m
  }

  lemma ReceivedMore(db: Db, m: string, S: set<string>, g: string)
    requires (forall h :: h in S ==> h in db.groups) && g in db.groups && g !in S && Fresh(db, m)
    ensures var now := Received(db, m, S);
            Key(m, g) !in now.ngposts && Received(db, m, S + {g}) == Added(now, m, g)
  {
    var a, b := Received(db, m, S + {g}), Added(Received(db, m, S), m, g);
    forall k ensures k in a.ngposts <==> k in b.ngposts {}
    assert a.ngposts == b.ngposts;
    assert a.groups == b.groups;
  }

  lemma ElemsStep(ns: seq<string>, i: nat)
    requires i < |ns|
    ensures Elems(ns[..i + 1]) == Elems(ns[..i]) + {ns[i]}
    ensures ns[i] in ns[..i] <==> ns[i] in Elems(ns[..i])
    ensures ns[i] in ns[..i] ==> Elems(ns[..i + 1]) == Elems(ns[..i])
  {
    assert ns[..i + 1] == ns[..i] + [ns[i]];
  }

  /** The groups that have received m after the first i names. */
  function After(db: Db, m: string, ns: seq<string>, i: nat): Db
    requires AllExist(db, ns) && i <= |ns|
  {
    Received(db, m, Elems(ns[..i]))
  }

  /** One turn from there. */
  lemma TurnAt(db: Db, m: string, ns: seq<string>, i: nat, p: Policy)
    requires i < |ns| && AllExist(db, ns) && Permitted(db, p, ns[i]) && Fresh(db, m)
    ensures var next := DeliverTo(After(db, m, ns, i), m, ns[i], p, HeldAfter(ns, i));
            next == if Passes(db, ns, i) then On(After(db, m, ns, i + 1), HeldAfter(ns, i + 1))
                    else Stop(EndingAt(db, ns, i))
  {
    var g, S, now := ns[i], Elems(ns[..i]), After(db, m, ns, i);
    ElemsStep(ns, i);
    assert Permitted(now, p, g);
    assert now.groups[g].high == db.groups[g].high + if g in S then 1 else 0;
    if g !in S {
      ReceivedMore(db, m, S, g);
      assert g !in HeldAfter(ns, i) by { HeldWereSeen(ns, i); }
    } else {
      HeldIsFirstAndLatest(ns, i);
      assert g in HeldAfter(ns, i) <==> g == ns[0] || g == Latest(ns, i);
      assert Key(m, g) in now.ngposts;
    }
  }

  lemma {:induction false} HeldWereSeen(ns: seq<string>, i: nat)
    requires i <= |ns|
    ensures forall x :: x in HeldAfter(ns, i) ==> x in ns[..i]
  {
    if i > 0 {
      HeldWereSeen(ns, i - 1);
      assert ns[..i] == ns[..i - 1] + [ns[i - 1]];
    }
  }

  /** What the loop makes of the names from the i-th on, the first i having gone through. */
  function Rest(db: Db, m: string, ns: seq<string>, i: nat, p: Policy): (Db, Ending)
    requires AllExist(db, ns) && i <= |ns|
  {
    Deliver(After(db, m, ns, i), m, ns[i..], p, HeldAfter(ns, i))
  }

  lemma RestEnds(db: Db, m: string, ns: seq<string>, p: Policy)
    requires AllExist(db, ns)
    ensures Rest(db, m, ns, |ns|, p) == (After(db, m, ns, |ns|), EndingAt(db, ns, |ns|))
  {
    assert ns[|ns|..] == [];
  }

  lemma RestStep(db: Db, m: string, ns: seq<string>, i: nat, p: Policy)
    requires i < |ns| && AllExist(db, ns) && Permitted(db, p, ns[i]) && Fresh(db, m)
    ensures Passes(db, ns, i) ==> Rest(db, m, ns, i, p) == Rest(db, m, ns, i + 1, p)
    ensures !Passes(db, ns, i) ==>
              Rest(db, m, ns, i, p) == (After(db, m, ns, i), EndingAt(db, ns, i))
  {
    assert ns[i..][0] == ns[i] && ns[i..][1..] == ns[i + 1..];
    TurnAt(db, m, ns, i, p);
  }

  /** The first name from the i-th on that does not pass, or the end of the list. */
  function FirstStop(db: Db, ns: seq<string>, i: nat): (stop: nat)
    requires i <= |ns| && AllExist(db, ns)
    ensures i <= stop <= |ns| && (forall j :: i <= j < stop ==> Passes(db, ns, j))
    ensures stop < |ns| ==> !Passes(db, ns, stop)
    decreases |ns| - i
  {
    if i == |ns| || !Passes(db, ns, i) then i else FirstStop(db, ns, i + 1)
  }

  /** From the i-th name on: the loop runs to the first name that does not pass, and the names up to
      that one have been delivered. */
  lemma {:induction false} DeliverFrom(db: Db, m: string, ns: seq<string>, i: nat, p: Policy)
    requires i <= |ns| && AllExist(db, ns) && Fresh(db, m)
    requires forall j :: 0 <= j < |ns| ==> Permitted(db, p, ns[j])
    ensures var stop := FirstStop(db, ns, i);
            Rest(db, m, ns, i, p) == (After(db, m, ns, stop), EndingAt(db, ns, stop))
    decreases |ns| - i
  {
    if i == |ns| {
      RestEnds(db, m, ns, p);
    } else {
      var stop := FirstStop(db, ns, i);
      RestStep(db, m, ns, i, p);
      if stop > i {
        DeliverFrom(db, m, ns, i + 1, p);
        assert FirstStop(db, ns, i + 1) == stop;
      }
    }
  }

  /** Names the ACLs deny might as well not be there. */
  lemma {:induction false} DeniedAreSkipped(db: Db, m: string, names: seq<string>, p: Policy, held: seq<string>)
    requires AllExist(db, names)
    ensures AllExist(db, PermittedOnly(db, names, p))
    ensures Deliver(db, m, names, p, held) == Deliver(db, m, PermittedOnly(db, names, p), p, held)
    decreases |names|
  {
    if names != [] {
      var g, rest := names[0], PermittedOnly(db, names[1..], p);
      var next := DeliverTo(db, m, g, p, held);
      DeniedAreSkipped(db, m, names[1..], p, held);
      assert ([g] + rest)[1..] == rest;
      if Permitted(db, p, g) && next.On? {
        DeniedAreSkipped(next.db, m, names[1..], p, next.held);
        SamePermits(db, next.db, names[1..], p);
      }
    }
  }

  lemma {:induction false} SamePermits(db: Db, db': Db, names: seq<string>, p: Policy)
    requires db.aclUsers == db'.aclUsers && db.userRoles == db'.userRoles && db.aclRoles == db'.aclRoles
    ensures PermittedOnly(db, names, p) == PermittedOnly(db', names, p)
  {
    if names != [] {
      SamePermits(db, db', names[1..], p);
    }
  }

  lemma {:induction false} PermittedOnes(db: Db, names: seq<string>, p: Policy)
    ensures forall x :: x in PermittedOnly(db, names, p) <==> x in names && Permitted(db, p, x)
  {
    if names != [] {
      PermittedOnes(db, names[1..], p);
    }
  }

  /** Crossposting a new message: the reply is 240 exactly when every repeat is caught and no
      counter is full; then each distinct permitted group has one row more and its counter is one
      higher.  Otherwise the names before the first that fails have been served in that way, and the
      connection dies at the article limit or, for a repeat the list has forgotten, at the primary
      key. */
  lemma CrosspostExactlyOnce(db: Db, m: string, names: seq<string>, p: Policy)
    requires AllExist(db, names) && Fresh(db, m)
    ensures var ns := PermittedOnly(db, names, p);
            && AllExist(db, ns)
            && var stop := FirstStop(db, ns, 0);
            && Deliver(db, m, names, p, []) == (Received(db, m, Elems(ns[..stop])), EndingAt(db, ns, stop))
            && (stop == |ns| <==> RepeatsCaught(ns) && RoomFor(db, ns))
  {
    var ns := PermittedOnly(db, names, p);
    DeniedAreSkipped(db, m, names, p, []);
    PermittedOnes(db, names, p);
    forall j | 0 <= j < |ns| ensures Permitted(db, p, ns[j]) {
      assert ns[j] in ns;
    }
    DeliverFrom(db, m, ns, 0, p);
    assert ns[0..] == ns;
    NoneReceived(db, m, ns);
    AllPassIff(db, ns);
  }

  lemma NoneReceived(db: Db, m: string, ns: seq<string>)
    requires AllExist(db, ns)
    ensures After(db, m, ns, 0) == db
  {
    var start := After(db, m, ns, 0);
    assert start.ngposts == db.ngposts && start.groups == db.groups;
  }

  lemma AllPassIff(db: Db, ns: seq<string>)
    requires AllExist(db, ns)
    ensures RepeatsCaught(ns) && RoomFor(db, ns) <==> forall i :: 0 <= i < |ns| ==> Passes(db, ns, i)
  {
    if forall i :: 0 <= i < |ns| ==> Passes(db, ns, i) {
      forall i | 0 < i < |ns| && ns[i] in ns[..i] ensures ns[i] == ns[0] || ns[i] == Latest(ns, i) {
        assert Passes(db, ns, i);
      }
      forall i | 0 <= i < |ns| ensures !Full(db, ns, i) {
        assert Passes(db, ns, i);
      }
    }
  }

  lemma {:induction false} LatestSeen(ns: seq<string>, i: nat)
    requires 0 < i <= |ns|
    ensures Latest(ns, i) in ns[..i] && ns[0] in ns[..i]
  {
    assert ns[0] == ns[..i][0] && ns[i - 1] == ns[..i][i - 1];
    if i > 1 && ns[i - 1] in ns[..i - 1] {
      LatestSeen(ns, i - 1);
      assert ns[..i - 1] == ns[..i][..i - 1];
    }
  }

  /** Lists without repeats, and lists over at most two names, are always caught. */
  lemma RepeatFreeIsCaught(ns: seq<string>)
    requires forall i, j :: 0 <= i < j < |ns| ==> ns[i] != ns[j]
    ensures RepeatsCaught(ns)
  {
  }

  lemma TwoNamesAreCaught(ns: seq<string>, a: string, b: string)
    requires forall i :: 0 <= i < |ns| ==> ns[i] == a || ns[i] == b
    ensures RepeatsCaught(ns)
  {
    forall i | 0 < i < |ns| && ns[i] in ns[..i] && ns[i] != ns[0] ensures ns[i] == Latest(ns, i) {
      LatestOfTwo(ns, i);
    }
  }

  lemma {:induction false} LatestOfTwo(ns: seq<string>, i: nat)
    requires 0 < i <= |ns| && exists x :: x in ns[..i] && x != ns[0]
    requires forall j, k, l :: 0 <= j < |ns| && 0 <= k < |ns| && 0 <= l < |ns| ==>
               ns[j] == ns[k] || ns[k] == ns[l] || ns[j] == ns[l]
    ensures Latest(ns, i) != ns[0] && Latest(ns, i) in ns[..i]
  {
    LatestSeen(ns, i);
    var x :| x in ns[..i] && x != ns[0];
    if i > 1 && ns[i - 1] in ns[..i - 1] {
      var j :| 0 <= j < i && ns[..i][j] == x;
      assert j < i - 1 ==> ns[..i - 1][j] == x;
      assert x in ns[..i - 1] && x != ns[0];
      LatestOfTwo(ns, i - 1);
    } else if i > 1 {
      assert ns[0] == ns[..i - 1][0];
    }
  }

  /** Three names with the middle one repeated last: the list has forgotten it. */
  lemma ForgottenRepeat(a: string, b: string, c: string)
    requires a != b && b != c && a != c
    ensures !RepeatsCaught([a, b, c, b])
  {
    var ns := [a, b, c, b];
    assert ns[..3] == [a, b, c] && ns[..2] == [a, b];
    assert ns[3] in ns[..3] && Latest(ns, 3) == c;
  }
}
