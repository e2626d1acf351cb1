/** The SQLite tables (database/usenet.db_struct) and the statements run on them
    (src/db_sqlite3.c).  A statement can fail only on a primary key. */
module Tables {
  import opened CStrings

  datatype Group = Group(pflag: char, high: nat)

  /** Primary key of ngposts. */
  datatype Key = Key(msgid: string, ng: string)

  datatype Posting = Posting(date: int, author: string, newsgroups: string,
                             subject: string, lines: int, header: string)

  /** newsgroups is kept by name: addgroup never inserts a name twice. */
  datatype Db = Db(groups: map<string, Group>, ngposts: map<Key, nat>, postings: map<string, Posting>,
                   users: map<string, string>, roles: set<string>, userRoles: set<(string, string)>,
                   aclUsers: set<(string, string)>, aclRoles: set<(string, string)>)

  const EMPTY := Db(map[], map[], map[], map[], {}, {}, {}, {})

  // ---------- Queries ----------

  /** The article of group g numbered n is message m. */
  predicate Row(db: Db, m: string, g: string, n: nat) {
    Key(m, g) in db.ngposts && db.ngposts[Key(m, g)] == n
  }

  predicate MayPost(db: Db, g: string) {
    g in db.groups && db.groups[g].pflag == 'y'
  }

  /** The ACL query: a direct row, or a row through one of the user's roles. */
  predicate Access(db: Db, user: Option<string>, g: string) {
    user.Some? &&
    ((user.value, g) in db.aclUsers
     || exists ur | ur in db.userRoles :: ur.0 == user.value && (ur.1, g) in db.aclRoles)
  }

  // ---------- Deletions that take several statements ----------

  /** Rows of ngposts outside group g. */
  function PostsOutside(posts: map<Key, nat>, g: string): map<Key, nat> {
    map k | k in posts && k.ng != g :: posts[k]
  }

  /** Postings that some row of ngposts still names. */
  function PostingsNamed(postings: map<string, Posting>, posts: map<Key, nat>): map<string, Posting> {
    map m | m in postings && (exists k | k in posts :: k.msgid == m) :: postings[m]
  }

  function WithoutFirst(rows: set<(string, string)>, x: string): set<(string, string)> {
    set r | r in rows && r.0 != x
  }

  function WithoutSecond(rows: set<(string, string)>, x: string): set<(string, string)> {
    set r | r in rows && r.1 != x
  }

  function GroupDeleted(db: Db, g: string): Db {
    var posts := PostsOutside(db.ngposts, g);
    db.(groups := db.groups - {g}, ngposts := posts, postings := PostingsNamed(db.postings, posts),
        aclUsers := WithoutSecond(db.aclUsers, g), aclRoles := WithoutSecond(db.aclRoles, g))
  }

  function UserDeleted(db: Db, u: string): Db {
    db.(users := db.users - {u}, userRoles := WithoutFirst(db.userRoles, u),
        aclUsers := WithoutFirst(db.aclUsers, u))
  }

  function RoleDeleted(db: Db, r: string): Db {
    db.(roles := db.roles - {r}, userRoles := WithoutSecond(db.userRoles, r),
        aclRoles := WithoutFirst(db.aclRoles, r))
  }

  // ---------- The database ----------

  class Database {
    var groups: map<string, Group>
    var ngposts: map<Key, nat>
    var postings: map<string, Posting>
    var users: map<string, string>
    var roles: set<string>
    var userRoles: set<(string, string)>
    var aclUsers: set<(string, string)>
    var aclRoles: set<(string, string)>

    function State(): Db
      reads this
    {
      Db(groups, ngposts, postings, users, roles, userRoles, aclUsers, aclRoles)
    }

    constructor (db: Db)
      ensures State() == db
    {
      groups, ngposts, postings := db.groups, db.ngposts, db.postings;
      users, roles, userRoles := db.users, db.roles, db.userRoles;
      aclUsers, aclRoles := db.aclUsers, db.aclRoles;
    }

    /** With no such group no callback runs, and the caller's variable keeps what it held. */
    method GetHighValue(newsgroup: string, uninitialised: nat) returns (high: nat)
      ensures high == if newsgroup in groups then groups[newsgroup].high else uninitialised
    {
      high := uninitialised;
      if newsgroup in groups {
        high := groups[newsgroup].high;
      }
    }

    method InsertIntoPostings(msgid: string, p: Posting) returns (ok: bool)
      modifies this`postings
      ensures ok <==> msgid !in old(postings)
      ensures postings == if ok then old(postings)[msgid := p] else old(postings)
    {
      ok := msgid !in postings;
      if ok {
        postings := postings[msgid := p];
      }
    }

    method InsertIntoNgposts(msgid: string, newsgroup: string, newHigh: nat) returns (ok: bool)
      modifies this`ngposts
      ensures ok <==> Key(msgid, newsgroup) !in old(ngposts)
      ensures ngposts == if ok then old(ngposts)[Key(msgid, newsgroup) := newHigh] else old(ngposts)
    {
      ok := Key(msgid, newsgroup) !in ngposts;
      if ok {
        ngposts := ngposts[Key(msgid, newsgroup) := newHigh];
      }
    }

    method UpdateHighValue(newHigh: nat, newsgroup: string)
      modifies this`groups
      ensures newsgroup !in old(groups) ==> groups == old(groups)
      ensures newsgroup in old(groups) ==>
                groups == old(groups)[newsgroup := old(groups)[newsgroup].(high := newHigh)]
    {
      if newsgroup in groups {
        groups := groups[newsgroup := groups[newsgroup].(high := newHigh)];
      }
    }

    /** Five statements; the last one looks for postings that no group names any more. */
    method DeleteNewsgroup(newsgroup: string)
      modifies this
      ensures State() == GroupDeleted(old(State()), newsgroup)
    {
      ngposts := map k | k in ngposts && k.ng != newsgroup :: ngposts[k];
      aclUsers := set r | r in aclUsers && r.1 != newsgroup;
      aclRoles := set r | r in aclRoles && r.1 != newsgroup;
      groups := groups - {newsgroup};
      postings := map m | m in postings && (exists k | k in ngposts :: k.msgid == m) :: postings[m];
    }

    method DelUser(username: string)
      modifies this
      ensures State() == UserDeleted(old(State()), username)
    {
      aclUsers := set r | r in aclUsers && r.0 != username;
      userRoles := set r | r in userRoles && r.0 != username;
      users := users - {username};
    }

    method DelRole(role: string)
      modifies this
      ensures State() == RoleDeleted(old(State()), role)
    {
      userRoles := set r | r in userRoles && r.1 != role;
      aclRoles := set r | r in aclRoles && r.0 != role;
      roles := roles - {role};
    }
  }
}
