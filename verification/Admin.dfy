/** `wendzelnntpadm` (src/cdpnntpadm.c): guards, then one change of the tables. */
module Admin {
  import opened Tables
  import opened Delivery

  datatype AdminCmd =
    | AddGroup(name: string, flag: string)
    | DelGroup(name: string)
    | ModGroup(name: string, flag: string)
    | AddUser(name: string, pass: string)
    | DelUser(name: string)
    | AddAclUser(user: string, group: string)
    | DelAclUser(user: string, group: string)
    | AddAclRole(role: string)
    | DelAclRole(role: string)
    | RoleGroupConnect(role: string, group: string)
    | RoleGroupDisconnect(role: string, group: string)
    | RoleUserConnect(role: string, user: string)
    | RoleUserDisconnect(role: string, user: string)

  const MAX_ARGS := 4096 - 0xff

  function ArgsLength(cmd: AdminCmd): nat {
    match cmd
    case AddGroup(a, b) => |a| + |b|
    case DelGroup(a) => |a|
    case ModGroup(a, b) => |a| + |b|
    case AddUser(a, b) => |a| + |b|
    case DelUser(a) => |a|
    case AddAclUser(a, b) => |a| + |b|
    case DelAclUser(a, b) => |a| + |b|
    case AddAclRole(a) => |a|
    case DelAclRole(a) => |a|
    case RoleGroupConnect(a, b) => |a| + |b|
    case RoleGroupDisconnect(a, b) => |a| + |b|
    case RoleUserConnect(a, b) => |a| + |b|
    case RoleUserDisconnect(a, b) => |a| + |b|
  }

  predicate IsAlnum(c: char) {
    '0' <= c <= '9' || 'a' <= c <= 'z' || 'A' <= c <= 'Z'
  }

  predicate GroupName(s: string) {
    forall i :: 0 <= i < |s| ==> IsAlnum(s[i]) || s[i] == '.' || s[i] == '-'
  }

  predicate UserName(s: string) {
    |s| <= 100 && forall i :: 0 <= i < |s| ==> IsAlnum(s[i])
  }

  /** Whether the flag fits between the quotes of the SQL text: an empty flag ends the text early
      and a quote unbalances it, so that the statement fails and the tool exits. */
  predicate FlagFits(s: string) {
    s != [] && s[0] != '\''
  }

  /** `argv[3][0]`. */
  function FlagOf(s: string): char
    requires FlagFits(s)
  {
    s[0]
  }

  /** The checks and the `exit_if_*` guards, the primary keys behind them, and the SQL text. */
  predicate Goes(db: Db, cmd: AdminCmd) {
    ArgsLength(cmd) <= MAX_ARGS &&
    match cmd
    case AddGroup(g, flag) => GroupName(g) && g !in db.groups && FlagFits(flag)
    case DelGroup(g) => g in db.groups
    case ModGroup(g, flag) => g in db.groups && FlagFits(flag)
    case AddUser(u, pass) => UserName(u) && 8 <= |pass| <= 100 && u !in db.users
    case DelUser(u) => u in db.users
    case AddAclUser(u, g) => u in db.users && g in db.groups && (u, g) !in db.aclUsers
    case DelAclUser(u, g) => u in db.users && g in db.groups
    case AddAclRole(r) => r !in db.roles
    case DelAclRole(r) => r in db.roles
    case RoleGroupConnect(r, g) => r in db.roles && g in db.groups && (r, g) !in db.aclRoles
    case RoleGroupDisconnect(r, g) => r in db.roles && g in db.groups
    case RoleUserConnect(r, u) => r in db.roles && u in db.users && (u, r) !in db.userRoles
    case RoleUserDisconnect(r, u) => r in db.roles && u in db.users
  }

  function Changed(hash: (string, string) -> string, db: Db, cmd: AdminCmd): Db
    requires Goes(db, cmd)
  {
    match cmd
    case AddGroup(g, flag) => db.(groups := db.groups[g := Group(FlagOf(flag), 0)])
    case DelGroup(g) => GroupDeleted(db, g)
    case ModGroup(g, flag) => db.(groups := db.groups[g := db.groups[g].(pflag := FlagOf(flag))])
    case AddUser(u, pass) => db.(users := db.users[u := hash(u, pass)])
    case DelUser(u) => UserDeleted(db, u)
    case AddAclUser(u, g) => db.(aclUsers := db.aclUsers + {(u, g)})
    case DelAclUser(u, g) => db.(aclUsers := db.aclUsers - {(u, g)})
    case AddAclRole(r) => db.(roles := db.roles + {r})
    case DelAclRole(r) => RoleDeleted(db, r)
    case RoleGroupConnect(r, g) => db.(aclRoles := db.aclRoles + {(r, g)})
    case RoleGroupDisconnect(r, g) => db.(aclRoles := db.aclRoles - {(r, g)})
    case RoleUserConnect(r, u) => db.(userRoles := db.userRoles + {(u, r)})
    case RoleUserDisconnect(r, u) => db.(userRoles := db.userRoles - {(u, r)})
  }

  /** One run of the tool: a failed guard or key leaves the tables alone. */
  function Administered(hash: (string, string) -> string, db: Db, cmd: AdminCmd): Db {
    if Goes(db, cmd) then Changed(hash, db, cmd) else db
  }

  // ---------- The code ----------

  method OnlyLetters(s: string, alsoDotDash: bool) returns (ok: bool)
    ensures ok <==> forall i :: 0 <= i < |s| ==> IsAlnum(s[i]) || (alsoDotDash && (s[i] == '.' || s[i] == '-'))
  {
    for i := 0 to |s|
      invariant forall j :: 0 <= j < i ==> IsAlnum(s[j]) || (alsoDotDash && (s[j] == '.' || s[j] == '-'))
    {
      if !IsAlnum(s[i]) && !(alsoDotDash && (s[i] == '.' || s[i] == '-')) {
        return false;
      }
    }
    return true;
  }

  class Tool {
    var db: Database
    const hash: (string, string) -> string

    constructor (db: Database, hash: (string, string) -> string)
      ensures this.db == db && this.hash == hash
    {
      this.db, this.hash := db, hash;
    }

    /** Groups: addgroup, delgroup, modgroup. */
    method RunGroup(cmd: AdminCmd) returns (ok: bool)
      requires cmd.AddGroup? || cmd.DelGroup? || cmd.ModGroup?
      requires ArgsLength(cmd) <= MAX_ARGS
      modifies db
      ensures ok <==> Goes(old(db.State()), cmd)
      ensures db.State() == Administered(hash, old(db.State()), cmd)
    {
      ok := true;
      match cmd
      case AddGroup(g, flag) =>
        var letters := OnlyLetters(g, true);
        if !letters || g in db.groups || !FlagFits(flag) { return false; }
        db.groups := db.groups[g := Group(FlagOf(flag), 0)];
      case DelGroup(g) =>
        if g !in db.groups { return false; }
        db.DeleteNewsgroup(g);
      case ModGroup(g, flag) =>
        if g !in db.groups || !FlagFits(flag) { return false; }
        db.groups := db.groups[g := db.groups[g].(pflag := FlagOf(flag))];
    }

    /** Users: adduser, deluser. */
    method RunUser(cmd: AdminCmd) returns (ok: bool)
      requires cmd.AddUser? || cmd.DelUser?
      requires ArgsLength(cmd) <= MAX_ARGS
      modifies db
      ensures ok <==> Goes(old(db.State()), cmd)
      ensures db.State() == Administered(hash, old(db.State()), cmd)
    {
      ok := true;
      match cmd
      case AddUser(u, pass) =>
        var letters := OnlyLetters(u, false);
        if !letters || |u| > 100 || |pass| < 8 || |pass| > 100 || u in db.users { return false; }
        db.users := db.users[u := hash(u, pass)];
      case DelUser(u) =>
        if u !in db.users { return false; }
        db.DelUser(u);
    }

    /** ACLs: the remaining commands. */
    method RunAcl(cmd: AdminCmd) returns (ok: bool)
      requires !cmd.AddGroup? && !cmd.DelGroup? && !cmd.ModGroup? && !cmd.AddUser? && !cmd.DelUser?
      requires ArgsLength(cmd) <= MAX_ARGS
      modifies db
      ensures ok <==> Goes(old(db.State()), cmd)
      ensures db.State() == Administered(hash, old(db.State()), cmd)
    {
      ok := true;
      match cmd
      case AddAclUser(u, g) =>
        if u !in db.users || g !in db.groups || (u, g) in db.aclUsers { return false; }
        db.aclUsers := db.aclUsers + {(u, g)};
      case DelAclUser(u, g) =>
        if u !in db.users || g !in db.groups { return false; }
        db.aclUsers := db.aclUsers - {(u, g)};
      case AddAclRole(r) =>
        if r in db.roles { return false; }
        db.roles := db.roles + {r};
      case DelAclRole(r) =>
        if r !in db.roles { return false; }
        db.DelRole(r);
      case RoleGroupConnect(r, g) =>
        if r !in db.roles || g !in db.groups || (r, g) in db.aclRoles { return false; }
        db.aclRoles := db.aclRoles + {(r, g)};
      case RoleGroupDisconnect(r, g) =>
        if r !in db.roles || g !in db.groups { return false; }
        db.aclRoles := db.aclRoles - {(r, g)};
      case RoleUserConnect(r, u) =>
        if r !in db.roles || u !in db.users || (u, r) in db.userRoles { return false; }
        db.userRoles := db.userRoles + {(u, r)};
      case RoleUserDisconnect(r, u) =>
        if r !in db.roles || u !in db.users { return false; }
        db.userRoles := db.userRoles - {(u, r)};
    }

    method Run(cmd: AdminCmd) returns (ok: bool)
      modifies db
      ensures ok <==> Goes(old(db.State()), cmd)
      ensures db.State() == Administered(hash, old(db.State()), cmd)
    {
      if ArgsLength(cmd) > MAX_ARGS {
        return false;
      }
      if cmd.AddGroup? || cmd.DelGroup? || cmd.ModGroup? {
        ok := RunGroup(cmd);
      } else if cmd.AddUser? || cmd.DelUser? {
        ok := RunUser(cmd);
      } else {
        ok := RunAcl(cmd);
      }
    }
  }

  // ---------- Grants ----------

  /** One row of an ACL table. */
  datatype Grant = ToUser(user: string, group: string) | Member(user: string, role: string)
                 | ToRole(role: string, group: string)

  predicate HasGrant(db: Db, grant: Grant) {
    match grant
    case ToUser(u, g) => (u, g) in db.aclUsers
    case Member(u, r) => (u, r) in db.userRoles
    case ToRole(r, g) => (r, g) in db.aclRoles
  }

  predicate SubjectsExist(db: Db, grant: Grant) {
    match grant
    case ToUser(u, g) => u in db.users && g in db.groups
    case Member(u, r) => u in db.users && r in db.roles
    case ToRole(r, g) => r in db.roles && g in db.groups
  }

  /** The one command that inserts this row. */
  function GrantedBy(grant: Grant): AdminCmd {
    match grant
    case ToUser(u, g) => AddAclUser(u, g)
    case Member(u, r) => RoleUserConnect(r, u)
    case ToRole(r, g) => RoleGroupConnect(r, g)
  }

  /** No ACL row dangles. */
  ghost predicate AclSound(db: Db) {
    forall grant :: HasGrant(db, grant) ==> SubjectsExist(db, grant)
  }

  lemma AdminKeepsAcl(hash: (string, string) -> string, db: Db, cmd: AdminCmd)
    requires AclSound(db)
    ensures AclSound(Administered(hash, db, cmd))
  {
    forall grant | HasGrant(Administered(hash, db, cmd), grant)
      ensures SubjectsExist(Administered(hash, db, cmd), grant)
    {
      GrantKept(hash, db, cmd, grant);
    }
  }

  /** A row is there after a command only if it was before or the command inserted it. */
  lemma GrantKept(hash: (string, string) -> string, db: Db, cmd: AdminCmd, grant: Grant)
    requires AclSound(db) && HasGrant(Administered(hash, db, cmd), grant)
    ensures SubjectsExist(Administered(hash, db, cmd), grant)
    ensures HasGrant(db, grant) || cmd == GrantedBy(grant)
    ensures SubjectsExist(db, grant)
  {
    assert HasGrant(db, grant) ==> SubjectsExist(db, grant);
    match grant
    case ToUser(u, g) =>
    case Member(u, r) =>
    case ToRole(r, g) =>
  }

  // ---------- Numbering ----------

  lemma AdminKeepsNumbers(hash: (string, string) -> string, db: Db, cmd: AdminCmd)
    requires Numbered(db)
    ensures Numbered(Administered(hash, db, cmd))
  {
    if Goes(db, cmd) {
      match cmd
      case DelGroup(g) => GroupDeletedNumbered(db, g);
      case AddGroup(g, flag) => GroupsChanged(db, Changed(hash, db, cmd));
      case ModGroup(g, flag) => GroupsChanged(db, Changed(hash, db, cmd));
      case _ => GroupsChanged(db, Changed(hash, db, cmd));
    }
  }

  /** Adding an empty group or changing a flag leaves the numbers as they are. */
  lemma GroupsChanged(db: Db, db': Db)
    requires Numbered(db) && db'.ngposts == db.ngposts && db'.postings == db.postings
    requires forall g :: g in db.groups ==> g in db'.groups && db'.groups[g].high == db.groups[g].high
    requires forall g :: g in db'.groups && g !in db.groups ==> db'.groups[g].high == 0
    ensures Numbered(db')
  {
    forall g, n: nat | g in db'.groups && 1 <= n <= db'.groups[g].high ensures Has(db', g, n) {
      assert Has(db, g, n);
      var x :| Row(db, x, g, n);
      assert Row(db', x, g, n);
    }
  }
}
