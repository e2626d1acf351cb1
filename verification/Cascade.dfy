/** The SQLite delete sequences against PostgreSQL's foreign keys (src/db_postgres.c,
    database/postgres_db_struct.sql): one DELETE there removes everything that refers, directly or
    over other rows, to the deleted row. */
module Cascade {
  import opened Tables

  /** A row of any table, by its primary key. */
  datatype Fact =
    | AGroup(name: string) | APosting(msgid: string) | APost(msgid: string, ng: string)
    | AUser(name: string) | ARole(role: string) | AMember(user: string, role: string)
    | AUserAcl(user: string, ng: string) | ARoleAcl(role: string, ng: string)

  predicate Present(db: Db, f: Fact) {
    match f
    case AGroup(g) => g in db.groups
    case APosting(m) => m in db.postings
    case APost(m, g) => Key(m, g) in db.ngposts
    case AUser(u) => u in db.users
    case ARole(r) => r in db.roles
    case AMember(u, r) => (u, r) in db.userRoles
    case AUserAcl(u, g) => (u, g) in db.aclUsers
    case ARoleAcl(r, g) => (r, g) in db.aclRoles
  }

  /** The "references ... on delete cascade" clauses of the schema: row f refers to row t. */
  predicate RefersTo(f: Fact, t: Fact) {
    match f
    case APost(m, g) => t == APosting(m) || t == AGroup(g)
    case AMember(u, r) => t == AUser(u) || t == ARole(r)
    case AUserAcl(u, g) => t == AUser(u) || t == AGroup(g)
    case ARoleAcl(r, g) => t == ARole(r) || t == AGroup(g)
    case _ => false
  }

  /** Deleted within n rounds: the row itself, then whatever refers to a deleted row. */
  ghost predicate DeletedIn(n: nat, root: Fact, f: Fact) {
    f == root || (n > 0 && exists t :: RefersTo(f, t) && DeletedIn(n - 1, root, t))
  }

  /** The cascade: rows deleted in some number of rounds. */
  ghost predicate Cascades(root: Fact, f: Fact) {
    exists n: nat :: DeletedIn(n, root, f)
  }

  /** References do not chain: what a row refers to refers to nothing. */
  lemma OneRound(n: nat, root: Fact, f: Fact)
    ensures DeletedIn(n, root, f) ==> f == root || RefersTo(f, root)
  {
    if n > 0 && f != root && DeletedIn(n, root, f) {
      var t :| RefersTo(f, t) && DeletedIn(n - 1, root, t);
      OneRound(n - 1, root, t);
    }
  }

  lemma CascadeIs(root: Fact, f: Fact)
    ensures Cascades(root, f) <==> f == root || RefersTo(f, root)
  {
    if Cascades(root, f) {
      var n: nat :| DeletedIn(n, root, f);
      OneRound(n, root, f);
    }
    if f == root {
      assert DeletedIn(0, root, f);
    } else if RefersTo(f, root) {
      assert DeletedIn(0, root, root);
      assert DeletedIn(1, root, f);
    }
  }

  /** Everything a row carries besides its key is as it was. */
  ghost predicate SameContents(db: Db, db': Db) {
    && (forall g :: g in db.groups && g in db'.groups ==> db'.groups[g] == db.groups[g])
    && (forall k :: k in db.ngposts && k in db'.ngposts ==> db'.ngposts[k] == db.ngposts[k])
    && (forall m :: m in db.postings && m in db'.postings ==> db'.postings[m] == db.postings[m])
    && (forall u :: u in db.users && u in db'.users ==> db'.users[u] == db.users[u])
  }

  /** The statements leave exactly the rows the cascade leaves; postings are the exception. */
  ghost predicate LeavesAsCascade(db: Db, db': Db, root: Fact) {
    && SameContents(db, db')
    && forall f: Fact :: !f.APosting? ==> (Present(db', f) <==> Present(db, f) && !Cascades(root, f))
  }

  /** delgroup: same tables as the cascade; beyond it, exactly the postings that are left in no
      group are removed. */
  lemma GroupDeleteIsCascade(db: Db, g: string)
    ensures LeavesAsCascade(db, GroupDeleted(db, g), AGroup(g))
    ensures var db' := GroupDeleted(db, g);
            forall m :: m in db'.postings <==> m in db.postings && exists h :: Key(m, h) in db'.ngposts
  {
    var db' := GroupDeleted(db, g);
    forall f: Fact | !f.APosting? ensures Present(db', f) <==> Present(db, f) && !Cascades(AGroup(g), f) {
      CascadeIs(AGroup(g), f);
    }
    forall m | m in db.postings
      ensures (exists k :: k in db'.ngposts && k.msgid == m) <==> exists h :: Key(m, h) in db'.ngposts
    {
      if k :| k in db'.ngposts && k.msgid == m {
        assert Key(m, k.ng) in db'.ngposts;
      }
    }
  }

  lemma UserDeleteIsCascade(db: Db, u: string)
    ensures LeavesAsCascade(db, UserDeleted(db, u), AUser(u)) && UserDeleted(db, u).postings == db.postings
  {
    forall f ensures Present(UserDeleted(db, u), f) <==> Present(db, f) && !Cascades(AUser(u), f) {
      CascadeIs(AUser(u), f);
    }
  }

  lemma RoleDeleteIsCascade(db: Db, r: string)
    ensures LeavesAsCascade(db, RoleDeleted(db, r), ARole(r)) && RoleDeleted(db, r).postings == db.postings
  {
    forall f ensures Present(RoleDeleted(db, r), f) <==> Present(db, f) && !Cascades(ARole(r), f) {
      CascadeIs(ARole(r), f);
    }
  }
}
