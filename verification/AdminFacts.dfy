/** What every administration command does to every table, row by row. */
module AdminFacts {
  import opened CStrings
  import opened Tables
  import opened Admin

  // ---------- Access ----------

  /** A row for the user, or a membership and a row for that role, give access to a group; nothing else
      does, and without a user there is none. */
  lemma AccessIff(db: Db, u: string, g: string)
    ensures Access(db, Some(u), g)
            <==> HasGrant(db, ToUser(u, g))
                 || exists role :: HasGrant(db, Member(u, role)) && HasGrant(db, ToRole(role, g))
    ensures !Access(db, None, g)
  {
    if role :| HasGrant(db, Member(u, role)) && HasGrant(db, ToRole(role, g)) {
      assert (u, role).0 == u && (u, role).1 == role;
    }
    if Access(db, Some(u), g) && !HasGrant(db, ToUser(u, g)) {
      var ur :| ur in db.userRoles && ur.0 == u && (ur.1, g) in db.aclRoles;
      assert ur == (u, ur.1);
      assert HasGrant(db, Member(u, ur.1)) && HasGrant(db, ToRole(ur.1, g));
    }
  }

  // ---------- Grants ----------

  /** The command that inserts this row. */
  predicate Inserts(cmd: AdminCmd, grant: Grant) {
    match grant
    case ToUser(u, g) => cmd == AddAclUser(u, g)
    case Member(u, role) => cmd == RoleUserConnect(role, u)
    case ToRole(role, g) => cmd == RoleGroupConnect(role, g)
  }

  /** The commands that take it away: its own one, and the deletion of a subject. */
  predicate Removes(cmd: AdminCmd, grant: Grant) {
    match grant
    case ToUser(u, g) => cmd == DelAclUser(u, g) || cmd == DelUser(u) || cmd == DelGroup(g)
    case Member(u, role) => cmd == RoleUserDisconnect(role, u) || cmd == DelUser(u) || cmd == DelAclRole(role)
    case ToRole(role, g) => cmd == RoleGroupDisconnect(role, g) || cmd == DelAclRole(role) || cmd == DelGroup(g)
  }

  /** After a command the row is there if and only if the command went through and inserts it, or it was
      there and the command did not go through or does not remove it. */
  lemma GrantStep(hash: (string, string) -> string, db: Db, cmd: AdminCmd, grant: Grant)
    ensures HasGrant(Administered(hash, db, cmd), grant)
            <==> (Goes(db, cmd) && Inserts(cmd, grant))
                 || (HasGrant(db, grant) && !(Goes(db, cmd) && Removes(cmd, grant)))
  {
    match grant
    case ToUser(u, g) => UserRowStep(hash, db, cmd, u, g);
    case Member(u, role) => MemberRowStep(hash, db, cmd, u, role);
    case ToRole(role, g) => RoleRowStep(hash, db, cmd, role, g);
  }

  lemma UserRowStep(hash: (string, string) -> string, db: Db, cmd: AdminCmd, u: string, g: string)
    ensures var grant := ToUser(u, g);
            HasGrant(Administered(hash, db, cmd), grant)
            <==> (Goes(db, cmd) && Inserts(cmd, grant))
                 || (HasGrant(db, grant) && !(Goes(db, cmd) && Removes(cmd, grant)))
  {
  }

  lemma MemberRowStep(hash: (string, string) -> string, db: Db, cmd: AdminCmd, u: string, role: string)
    ensures var grant := Member(u, role);
            HasGrant(Administered(hash, db, cmd), grant)
            <==> (Goes(db, cmd) && Inserts(cmd, grant))
                 || (HasGrant(db, grant) && !(Goes(db, cmd) && Removes(cmd, grant)))
  {
  }

  lemma RoleRowStep(hash: (string, string) -> string, db: Db, cmd: AdminCmd, role: string, g: string)
    ensures var grant := ToRole(role, g);
            HasGrant(Administered(hash, db, cmd), grant)
            <==> (Goes(db, cmd) && Inserts(cmd, grant))
                 || (HasGrant(db, grant) && !(Goes(db, cmd) && Removes(cmd, grant)))
  {
  }

  /** Granting and taking back are each other's inverse. */
  lemma GrantAndTakeBack(hash: (string, string) -> string, db: Db, u: string, g: string)
    requires Goes(db, AddAclUser(u, g))
    ensures var granted := Administered(hash, db, AddAclUser(u, g));
            Access(granted, Some(u), g) && Goes(granted, DelAclUser(u, g))
            && Administered(hash, granted, DelAclUser(u, g)) == db
  {
    var granted := Administered(hash, db, AddAclUser(u, g));
    GrantStep(hash, db, AddAclUser(u, g), ToUser(u, g));
    AccessIff(granted, u, g);
    assert granted.aclUsers - {(u, g)} == db.aclUsers;
  }

  // ---------- Which commands go through ----------

  /** Grants need both subjects and go in once; taking back needs the subjects only. */
  lemma GrantGoes(db: Db, a: string, b: string)
    requires |a| + |b| <= 3841
    ensures Goes(db, AddAclUser(a, b)) <==> a in db.users && b in db.groups && !HasGrant(db, ToUser(a, b))
    ensures Goes(db, DelAclUser(a, b)) <==> a in db.users && b in db.groups
    ensures Goes(db, RoleGroupConnect(a, b)) <==> a in db.roles && b in db.groups && !HasGrant(db, ToRole(a, b))
    ensures Goes(db, RoleGroupDisconnect(a, b)) <==> a in db.roles && b in db.groups
    ensures Goes(db, RoleUserConnect(a, b)) <==> a in db.roles && b in db.users && !HasGrant(db, Member(b, a))
    ensures Goes(db, RoleUserDisconnect(a, b)) <==> a in db.roles && b in db.users
  {
  }

  /** Names are made once and deleted where they exist; a password has 8 to 100 characters. */
  lemma NameGoes(db: Db, a: string, b: string)
    requires |a| + |b| <= 3841
    ensures Goes(db, AddGroup(a, b)) <==> GroupName(a) && a !in db.groups && b != [] && b[0] != '\''
    ensures Goes(db, ModGroup(a, b)) <==> a in db.groups && b != [] && b[0] != '\''
    ensures Goes(db, DelGroup(a)) <==> a in db.groups
    ensures Goes(db, AddUser(a, b)) <==> UserName(a) && a !in db.users && 8 <= |b| <= 100
    ensures Goes(db, DelUser(a)) <==> a in db.users
    ensures Goes(db, AddAclRole(a)) <==> a !in db.roles
    ensures Goes(db, DelAclRole(a)) <==> a in db.roles
  {
  }

  /** More than 3841 bytes of arguments and nothing goes through. */
  lemma LongGoesNot(db: Db, cmd: AdminCmd)
    requires ArgsLength(cmd) > 3841
    ensures !Goes(db, cmd)
  {
  }

  // ---------- Groups, users, roles ----------

  /** addgroup makes an empty group with the flag it is given, modgroup sets the flag and keeps the
      number, delgroup deletes; nothing else touches a group. */
  lemma GroupStep(hash: (string, string) -> string, db: Db, cmd: AdminCmd, g: string)
    ensures var after := Administered(hash, db, cmd);
            && (g in after.groups <==> (Goes(db, cmd) && cmd.AddGroup? && cmd.name == g)
                                       || (g in db.groups && !(Goes(db, cmd) && cmd == DelGroup(g))))
            && (g in after.groups ==>
                  if Goes(db, cmd) && cmd.AddGroup? && cmd.name == g then after.groups[g] == Group(cmd.flag[0], 0)
                  else if Goes(db, cmd) && cmd.ModGroup? && cmd.name == g then
                    after.groups[g] == Group(cmd.flag[0], db.groups[g].high)
                  else after.groups[g] == db.groups[g])
  {
  }

  /** adduser stores the hash of the password, deluser deletes; nothing else touches a user. */
  lemma UserStep(hash: (string, string) -> string, db: Db, cmd: AdminCmd, u: string)
    ensures var after := Administered(hash, db, cmd);
            && (u in after.users <==> (Goes(db, cmd) && cmd.AddUser? && cmd.name == u)
                                      || (u in db.users && !(Goes(db, cmd) && cmd == DelUser(u))))
            && (u in after.users ==>
                  after.users[u]
                  == if Goes(db, cmd) && cmd.AddUser? && cmd.name == u then hash(u, cmd.pass) else db.users[u])
  {
  }

  lemma RoleStep(hash: (string, string) -> string, db: Db, cmd: AdminCmd, role: string)
    ensures role in Administered(hash, db, cmd).roles
            <==> (Goes(db, cmd) && cmd == AddAclRole(role))
                 || (role in db.roles && !(Goes(db, cmd) && cmd == DelAclRole(role)))
  {
  }
}
