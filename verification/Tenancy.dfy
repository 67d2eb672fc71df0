/** Users, organisations, memberships and module ownership, as the handlers change them over runs. */
module Tenancy {
  import opened Model
  import opened Authz

  type Modules = map<(string, string), Module>

  datatype State = State(a: Accounts, modules: Modules)

  const EMPTY: State := State(Accounts(map[], map[], map[], map[]), map[])

  /** The calls of the handlers. The caller is the ID of the authenticated user, or None. A fault can leave an
      org without the row for its creator, which is a second insertion. */
  datatype Event =
    | Register(userId: string, username: string)
    | CreateOrg(caller: Option<string>, orgName: string, orgId: string, memberFails: bool)
    | AddMember(caller: Option<string>, orgName: string, username: string, role: OrgRole, fault: Fault)
    | RemoveMember(caller: Option<string>, orgName: string, username: string, fault: Fault)
    | CreateModule(caller: Option<string>, owner: string, name: string, moduleId: string, visibility: Visibility)

  /** Which backend call of adding or removing a member fails, if any. */
  datatype Fault = NoFault | OrgRead | RoleRead | UserRead | RowWrite

  datatype Status = Success | LoggedOut | Missing | Forbidden | Conflict | Failed

  predicate OrgIdTaken(a: Accounts, id: string) {
    exists n :: n in a.orgs && a.orgs[n].id == id
  }

  predicate ModuleIdTaken(modules: Modules, id: string) {
    exists k :: k in modules && modules[k].id == id
  }

  predicate LoggedIn(a: Accounts, caller: Option<string>) {
    caller.Some? && caller.value in a.users
  }

  /** What adding and removing members check, in order, before they touch a row. A read that fails counts as one
      that finds nothing. */
  function MemberCheck(a: Accounts, caller: Option<string>, orgName: string, username: string, fault: Fault): Status {
    if !LoggedIn(a, caller) then LoggedOut
    else if fault == OrgRead || orgName !in a.orgs then Missing
    else if fault == RoleRead || !CanManageMembers(a, caller.value, a.orgs[orgName].id) then Forbidden
    else if fault == UserRead || username !in a.userIds then Missing
    else if fault == RowWrite then Failed
    else Success
  }

  function Step(s: State, e: Event): (State, Status) {
    var a := s.a;
    match e
    case Register(userId, username) =>
      if username in a.userIds then (s, Conflict)
      else if userId == "" || userId in a.users then (s, Failed)
      else
        var a1 := a.(users := a.users[userId := User(userId, username)], userIds := a.userIds[username := userId]);
        (s.(a := a1), Success)
    case CreateOrg(caller, orgName, orgId, memberFails) =>
      if !LoggedIn(a, caller) then (s, LoggedOut)
      else if orgName in a.orgs then (s, Conflict)
      else if OrgIdTaken(a, orgId) then (s, Failed)
      else
        var a1 := a.(orgs := a.orgs[orgName := Org(orgId, orgName)]);
        if memberFails || (orgId, caller.value) in a.members then (s.(a := a1), Failed)
        else (s.(a := a1.(members := a.members[(orgId, caller.value) := Admin])), Success)
    case AddMember(caller, orgName, username, role, fault) =>
      var status := MemberCheck(a, caller, orgName, username, fault);
      if status != Success then (s, status)
      else
        var k := (a.orgs[orgName].id, a.userIds[username]);
        if k in a.members then (s, Failed) else (s.(a := a.(members := a.members[k := role])), Success)
    case RemoveMember(caller, orgName, username, fault) =>
      var status := MemberCheck(a, caller, orgName, username, fault);
      if status != Success then (s, status)
      else (s.(a := a.(members := a.members - {(a.orgs[orgName].id, a.userIds[username])})), Success)
    case CreateModule(caller, owner, name, moduleId, visibility) =>
      if !LoggedIn(a, caller) then (s, LoggedOut)
      else if !CanCreate(a, caller.value, owner) then (s, Forbidden)
      else if (owner, name) in s.modules then (s, Conflict)
      else if ModuleIdTaken(s.modules, moduleId) then (s, Failed)
      else
        var m := Module(moduleId, owner, OwnerTypeFor(a.users[caller.value], owner), name, visibility);
        (s.(modules := s.modules[(owner, name) := m]), Success)
  }

  // ---------- what the calls mean ----------

  predicate IsMember(s: State, orgId: string, userId: string) {
    (orgId, userId) in s.a.members
  }

  predicate IsAdmin(s: State, orgId: string, userId: string) {
    IsMember(s, orgId, userId) && s.a.members[(orgId, userId)] == Admin
  }

  ghost predicate UsersOk(a: Accounts) {
    && "" !in a.users
    && (forall id :: id in a.users ==>
          && a.users[id].id == id
          && a.users[id].username in a.userIds && a.userIds[a.users[id].username] == id)
    && (forall n :: n in a.userIds ==> a.userIds[n] in a.users && a.users[a.userIds[n]].username == n)
  }

  ghost predicate OrgsOk(a: Accounts) {
    && (forall n :: n in a.orgs ==> a.orgs[n].name == n)
    && (forall n, n' :: n in a.orgs && n' in a.orgs && a.orgs[n].id == a.orgs[n'].id ==> n == n')
    && (forall k :: k in a.members ==> OrgIdTaken(a, k.0) && k.1 in a.users)
  }

  /** The owner of every module exists: as a user where the module is owned by a user, as an org otherwise. */
  ghost predicate OwnersOk(s: State) {
    forall k :: k in s.modules ==>
      var m := s.modules[k];
      && m.ownerName == k.0 && m.name == k.1
      && (m.ownerType == OwnedByUser ==> m.ownerName in s.a.userIds)
      && (m.ownerType == OwnedByOrg ==> m.ownerName in s.a.orgs)
  }

  ghost predicate Consistent(s: State) {
    UsersOk(s.a) && OrgsOk(s.a) && OwnersOk(s)
  }

  predicate OwnedBy(a: Accounts, m: Module, orgId: string) {
    m.ownerType == OwnedByOrg && m.ownerName in a.orgs && a.orgs[m.ownerName].id == orgId
  }

  /** Nobody gains or loses a right on a module that was there. */
  ghost predicate SameRights(s: State, s': State) {
    forall k, u :: k in s.modules ==>
      && k in s'.modules && s'.modules[k] == s.modules[k]
      && (CanWrite(s'.a, u, s.modules[k]) <==> CanWrite(s.a, u, s.modules[k]))
      && (CanAdmin(s'.a, u, s.modules[k]) <==> CanAdmin(s.a, u, s.modules[k]))
  }

  /** One user can write to the modules of one org from now on, and administer them as an admin; nothing else. */
  ghost predicate RightsGained(s: State, s': State, orgId: string, userId: string, role: OrgRole) {
    && s'.modules == s.modules
    && forall k, u :: k in s.modules ==>
         var m, him := s.modules[k], u == userId && OwnedBy(s.a, s.modules[k], orgId);
         && (CanWrite(s'.a, u, m) <==> CanWrite(s.a, u, m) || him)
         && (CanAdmin(s'.a, u, m) <==> CanAdmin(s.a, u, m) || (him && role == Admin))
  }

  /** One user cannot write to the modules of one org any more; nothing else. */
  ghost predicate RightsLost(s: State, s': State, orgId: string, userId: string) {
    && s'.modules == s.modules
    && forall k, u :: k in s.modules ==>
         var m, him := s.modules[k], u == userId && OwnedBy(s.a, s.modules[k], orgId);
         && (CanWrite(s'.a, u, m) <==> CanWrite(s.a, u, m) && !him)
         && (CanAdmin(s'.a, u, m) <==> CanAdmin(s.a, u, m) && !him)
  }

  /** The caller may manage the members of the org, and the user exists. */
  ghost predicate ManagesMember(s: State, caller: Option<string>, orgName: string, username: string) {
    && caller.Some? && caller.value in s.a.users && orgName in s.a.orgs
    && IsAdmin(s, s.a.orgs[orgName].id, caller.value) && username in s.a.userIds
  }

  /** The answer that adding or removing a member gives for each reason to refuse: nobody is logged in; the org is
      not found; the caller is not found to be its admin; the user is not found. */
  ghost predicate RefusedFor(s: State, caller: Option<string>, orgName: string, username: string, fault: Fault,
                             r: Status)
  {
    var known := caller.Some? && caller.value in s.a.users;
    var org := orgName in s.a.orgs && fault != OrgRead;
    var admin := known && org && fault != RoleRead && IsAdmin(s, s.a.orgs[orgName].id, caller.value);
    && (r == LoggedOut <==> !known)
    && (r == Forbidden <==> known && org && !admin)
    && (r == Missing <==> known && (!org || (admin && (username !in s.a.userIds || fault == UserRead))))
    && r != Conflict
  }

  lemma MemberCheckMeans(s: State, caller: Option<string>, orgName: string, username: string, fault: Fault)
    requires UsersOk(s.a)
    ensures var r := MemberCheck(s.a, caller, orgName, username, fault);
      && (r == Success <==> fault == NoFault && ManagesMember(s, caller, orgName, username))
      && RefusedFor(s, caller, orgName, username, fault, r)
  {
  }

  // A registration adds a user under a free name, or changes nothing; it gives nobody any right.
  lemma RegisterMeans(s: State, userId: string, username: string)
    requires Consistent(s)
    ensures var (s', r) := Step(s, Register(userId, username));
      && (r == Conflict <==> username in s.a.userIds)
      && (r == Success <==> username !in s.a.userIds && userId != "" && userId !in s.a.users)
      && (r != Success ==> s' == s)
      && (r == Success ==>
            && s'.a.users == s.a.users[userId := User(userId, username)]
            && s'.a.userIds == s.a.userIds[username := userId])
      && SameRights(s, s')
  {
    hide OrgIdTaken, ModuleIdTaken, OrgsOk, MemberCheck, CanCreate;
  }

  // A new org has its creator as its only member and as an admin; when the second insertion fails it has nobody.
  lemma CreateOrgMeans(s: State, caller: Option<string>, orgName: string, orgId: string, memberFails: bool)
    requires Consistent(s)
    ensures var (s', r) := Step(s, CreateOrg(caller, orgName, orgId, memberFails));
      && (r == LoggedOut <==> !(caller.Some? && caller.value in s.a.users))
      && (r == Conflict <==> caller.Some? && caller.value in s.a.users && orgName in s.a.orgs)
      && (r == Success <==>
            && caller.Some? && caller.value in s.a.users && orgName !in s.a.orgs && !memberFails
            && (forall n :: n in s.a.orgs ==> s.a.orgs[n].id != orgId))
      && (r == Success || r == Failed || s' == s)
      && (r == Success ==>
            && s'.a.orgs == s.a.orgs[orgName := Org(orgId, orgName)]
            && (forall u :: IsMember(s', orgId, u) <==> u == caller.value) && IsAdmin(s', orgId, caller.value))
      && (r == Failed && s' != s ==>
            && memberFails && orgName !in s.a.orgs
            && s'.a.orgs == s.a.orgs[orgName := Org(orgId, orgName)] && s'.a.members == s.a.members
            && (forall u :: !IsMember(s', orgId, u)))
      && (forall o, u :: o != orgId ==>
            && (IsMember(s', o, u) <==> IsMember(s, o, u))
            && (IsAdmin(s', o, u) <==> IsAdmin(s, o, u)))
      && SameRights(s, s')
  {
    hide Step, UsersOk, OwnersOk, CanWrite, CanAdmin;
    var e := CreateOrg(caller, orgName, orgId, memberFails);
    CreateOrgShape(s, e);
    if !OrgIdTaken(s.a, orgId) { NoMembersYet(s, orgId); }
    CreateOrgRights(s, e);
  }

  lemma CreateOrgShape(s: State, e: Event)
    requires e.CreateOrg?
    ensures var (s', r) := Step(s, e);
      && (r == LoggedOut <==> !LoggedIn(s.a, e.caller))
      && (r == Conflict <==> LoggedIn(s.a, e.caller) && e.orgName in s.a.orgs)
      && (LoggedIn(s.a, e.caller) && e.orgName !in s.a.orgs && !OrgIdTaken(s.a, e.orgId) ==> s' != s)
      && (
      || (s' == s && r != Success)
      || (&& LoggedIn(s.a, e.caller) && e.orgName !in s.a.orgs && !OrgIdTaken(s.a, e.orgId)
          && var a1 := s.a.(orgs := s.a.orgs[e.orgName := Org(e.orgId, e.orgName)]);
             if e.memberFails || (e.orgId, e.caller.value) in s.a.members then r == Failed && s' == s.(a := a1)
             else r == Success && s' == s.(a := a1.(members := s.a.members[(e.orgId, e.caller.value) := Admin]))))
  {
    hide ModuleIdTaken, MemberCheck, CanCreate, OrgIdTaken;
  }

  lemma NoMembersYet(s: State, orgId: string)
    requires OrgsOk(s.a) && !OrgIdTaken(s.a, orgId)
    ensures forall u :: (orgId, u) !in s.a.members
  {
    hide OrgIdTaken;
    forall u ensures (orgId, u) !in s.a.members { assert (orgId, u) in s.a.members ==> OrgIdTaken(s.a, (orgId, u).0); }
  }

  lemma RoleKept(a: Accounts, a': Accounts, userId: string, m: Module)
    requires a'.users == a.users
    requires m.ownerType == OwnedByOrg ==>
      && m.ownerName in a.orgs && m.ownerName in a'.orgs && a'.orgs[m.ownerName] == a.orgs[m.ownerName]
      && var k := (a.orgs[m.ownerName].id, userId);
         (k in a'.members <==> k in a.members) && (k in a.members ==> a'.members[k] == a.members[k])
    ensures ModuleRole(a', userId, m) == ModuleRole(a, userId, m)
  {
  }

  lemma CreateOrgRights(s: State, e: Event)
    requires Consistent(s) && e.CreateOrg?
    ensures SameRights(s, Step(s, e).0)
  {
    hide Step, UsersOk, ModuleRole, OrgsOk;
    CreateOrgShape(s, e);
    var s' := Step(s, e).0;
    forall k, u | k in s.modules ensures ModuleRole(s'.a, u, s.modules[k]) == ModuleRole(s.a, u, s.modules[k]) {
      if s.modules[k].ownerType == OwnedByOrg {
        assert OrgIdTaken(s.a, s.a.orgs[s.modules[k].ownerName].id);
      }
      RoleKept(s.a, s'.a, u, s.modules[k]);
    }
  }

  // Adding a member succeeds exactly when no call fails, for an admin of the org and a user who is not a member yet;
  // then that user alone gains the rights of the role on the org's modules, and otherwise nothing changes.
  lemma AddMemberMeans(s: State, caller: Option<string>, orgName: string, username: string, role: OrgRole,
                       fault: Fault)
    requires Consistent(s)
    ensures var (s', r) := Step(s, AddMember(caller, orgName, username, role, fault));
      && (r == Success <==>
            && fault == NoFault && ManagesMember(s, caller, orgName, username)
            && !IsMember(s, s.a.orgs[orgName].id, s.a.userIds[username]))
      && RefusedFor(s, caller, orgName, username, fault, r)
      && (r != Success ==> s' == s)
      && (r == Success ==>
            var k := (s.a.orgs[orgName].id, s.a.userIds[username]);
            s' == s.(a := s.a.(members := s.a.members[k := role])) && RightsGained(s, s', k.0, k.1, role))
  {
    hide ModuleIdTaken, OrgIdTaken, MemberCheck, CanCreate, RightsGained, OrgsOk, OwnersOk;
    MemberCheckMeans(s, caller, orgName, username, fault);
    if ManagesMember(s, caller, orgName, username) && !IsMember(s, s.a.orgs[orgName].id, s.a.userIds[username]) {
      RowGivesRights(s, s.a.orgs[orgName].id, s.a.userIds[username], role);
    }
  }

  lemma RowGivesRights(s: State, orgId: string, userId: string, role: OrgRole)
    requires UsersOk(s.a) && userId in s.a.users && !IsMember(s, orgId, userId)
    ensures RightsGained(s, s.(a := s.a.(members := s.a.members[(orgId, userId) := role])), orgId, userId, role)
  {
  }

  // Removing a member succeeds exactly when no call fails, for an admin of the org, who may name a user who is no
  // member; then that user is none, alone loses the rights on the org's modules, and otherwise nothing changes.
  lemma RemoveMemberMeans(s: State, caller: Option<string>, orgName: string, username: string, fault: Fault)
    requires Consistent(s)
    ensures var (s', r) := Step(s, RemoveMember(caller, orgName, username, fault));
      && (r == Success <==> fault == NoFault && ManagesMember(s, caller, orgName, username))
      && RefusedFor(s, caller, orgName, username, fault, r)
      && (r != Success ==> s' == s)
      && (r == Success ==>
            var k := (s.a.orgs[orgName].id, s.a.userIds[username]);
            s' == s.(a := s.a.(members := s.a.members - {k})) && RightsLost(s, s', k.0, k.1))
  {
    hide ModuleIdTaken, OrgIdTaken, MemberCheck, CanCreate;
    MemberCheckMeans(s, caller, orgName, username, fault);
  }

  // A module is created by exactly the user of its owner name or an admin of the org of that name, where nothing is
  // in the way; the creator can administer it from then on, and no other module is touched.
  lemma CreateModuleMeans(s: State, caller: Option<string>, owner: string, name: string, moduleId: string,
                          visibility: Visibility)
    requires Consistent(s)
    ensures var (s', r) := Step(s, CreateModule(caller, owner, name, moduleId, visibility));
      var known := caller.Some? && caller.value in s.a.users;
      var owns := known
        && (s.a.users[caller.value].username == owner
            || (owner in s.a.orgs && IsAdmin(s, s.a.orgs[owner].id, caller.value)));
      && (r == LoggedOut <==> !known)
      && (r == Forbidden <==> known && !owns)
      && (r == Conflict <==> owns && (owner, name) in s.modules)
      && (r == Success <==>
            owns && (owner, name) !in s.modules && forall k :: k in s.modules ==> s.modules[k].id != moduleId)
      && (r != Success ==> s' == s)
      && (r == Success ==>
            && s'.a == s.a && (owner, name) in s'.modules
            && var m := s'.modules[(owner, name)];
               && m.id == moduleId && m.ownerName == owner && m.name == name && m.visibility == visibility
               && (m.ownerType == OwnedByUser <==> s.a.users[caller.value].username == owner)
               && s'.modules == s.modules[(owner, name) := m] && CanAdmin(s'.a, caller.value, m))
      && SameRights(s, s')
  {
    hide OrgIdTaken, MemberCheck, OwnersOk, OrgsOk;
  }

  // ---------- the handlers ----------

  class Handlers {
    var users: map<string, User>
    var userIds: map<string, string>
    var orgs: map<string, Org>
    var members: map<(string, string), OrgRole>
    var modules: Modules

    constructor ()
      ensures Tables() == EMPTY
    {
      users, userIds, orgs, members, modules := map[], map[], map[], map[], map[];
    }

    function Tables(): State
      reads this
    {
      State(Accounts(users, userIds, orgs, members), modules)
    }

    method HandleRegister(userId: string, username: string) returns (r: Status)
      modifies this`users, this`userIds
      ensures (Tables(), r) == Step(old(Tables()), Register(userId, username))
      ensures r != Success ==> Tables() == old(Tables())
      ensures r == Success ==>
        && userId !in old(users) && username !in old(userIds)
        && users == old(users)[userId := User(userId, username)] && userIds == old(userIds)[username := userId]
      ensures Consistent(old(Tables())) ==> SameRights(old(Tables()), Tables())
    {
      if Consistent(Tables()) { RegisterMeans(Tables(), userId, username); }
      if username in userIds {
        return Conflict;
      }
      if userId == "" || userId in users {
        return Failed;
      }
      users, userIds := users[userId := User(userId, username)], userIds[username := userId];
      return Success;
    }

    method HandleCreateOrg(caller: Option<string>, orgName: string, orgId: string, memberFails: bool)
      returns (r: Status)
      modifies this`orgs, this`members
      ensures (Tables(), r) == Step(old(Tables()), CreateOrg(caller, orgName, orgId, memberFails))
      ensures Consistent(old(Tables())) ==> SameRights(old(Tables()), Tables())
      ensures Consistent(old(Tables())) && r == Success ==>
        orgName !in old(orgs) && orgs == old(orgs)[orgName := Org(orgId, orgName)] && !memberFails
        && (forall u :: (orgId, u) in members <==> Some(u) == caller) && IsAdmin(Tables(), orgId, caller.value)
      ensures Consistent(old(Tables())) && r != Success && Tables() != old(Tables()) ==>
        r == Failed && memberFails && orgs == old(orgs)[orgName := Org(orgId, orgName)]
        && forall u :: (orgId, u) !in members
    {
      if Consistent(Tables()) { CreateOrgMeans(Tables(), caller, orgName, orgId, memberFails); }
      if !LoggedIn(Tables().a, caller) {
        return LoggedOut;
      }
      if orgName in orgs {
        return Conflict;
      }
      if OrgIdTaken(Tables().a, orgId) {
        return Failed;
      }
      orgs := orgs[orgName := Org(orgId, orgName)];
      if memberFails || (orgId, caller.value) in members {
        return Failed;
      }
      members := members[(orgId, caller.value) := Admin];
      return Success;
    }

    method HandleAddMember(caller: Option<string>, orgName: string, username: string, role: OrgRole, fault: Fault)
      returns (r: Status)
      modifies this`members
      ensures (Tables(), r) == Step(old(Tables()), AddMember(caller, orgName, username, role, fault))
      ensures r != Success ==> Tables() == old(Tables())
      ensures Consistent(old(Tables())) && r == Success ==>
        && old(ManagesMember(Tables(), caller, orgName, username))
        && var k := (orgs[orgName].id, userIds[username]);
           && k !in old(members) && members == old(members)[k := role]
           && RightsGained(old(Tables()), Tables(), k.0, k.1, role)
    {
      if Consistent(Tables()) { AddMemberMeans(Tables(), caller, orgName, username, role, fault); }
      if !LoggedIn(Tables().a, caller) {
        return LoggedOut;
      }
      if fault == OrgRead || orgName !in orgs {
        return Missing;
      }
      var org := orgs[orgName];
      if fault == RoleRead || !CanManageMembers(Tables().a, caller.value, org.id) {
        return Forbidden;
      }
      if fault == UserRead || username !in userIds {
        return Missing;
      }
      if fault == RowWrite || (org.id, userIds[username]) in members {
        return Failed;
      }
      members := members[(org.id, userIds[username]) := role];
      return Success;
    }

    method HandleRemoveMember(caller: Option<string>, orgName: string, username: string, fault: Fault)
      returns (r: Status)
      modifies this`members
      ensures (Tables(), r) == Step(old(Tables()), RemoveMember(caller, orgName, username, fault))
      ensures r != Success ==> Tables() == old(Tables())
      ensures Consistent(old(Tables())) && r == Success ==>
        && old(ManagesMember(Tables(), caller, orgName, username))
        && var k := (orgs[orgName].id, userIds[username]);
           members == old(members) - {k} && RightsLost(old(Tables()), Tables(), k.0, k.1)
    {
      if Consistent(Tables()) { RemoveMemberMeans(Tables(), caller, orgName, username, fault); }
      if !LoggedIn(Tables().a, caller) {
        return LoggedOut;
      }
      if fault == OrgRead || orgName !in orgs {
        return Missing;
      }
      var org := orgs[orgName];
      if fault == RoleRead || !CanManageMembers(Tables().a, caller.value, org.id) {
        return Forbidden;
      }
      if fault == UserRead || username !in userIds {
        return Missing;
      }
      if fault == RowWrite {
        return Failed;
      }
      members := members - {(org.id, userIds[username])};
      return Success;
    }

    method HandleCreateModule(caller: Option<string>, owner: string, name: string, moduleId: string,
                              visibility: Visibility)
      returns (r: Status)
      modifies this`modules
      ensures (Tables(), r) == Step(old(Tables()), CreateModule(caller, owner, name, moduleId, visibility))
      ensures r != Success ==> Tables() == old(Tables())
      ensures Consistent(old(Tables())) ==> SameRights(old(Tables()), Tables())
      ensures Consistent(old(Tables())) && r == Success ==>
        && (owner, name) !in old(modules) && (owner, name) in modules
        && var m := modules[(owner, name)];
           && modules == old(modules)[(owner, name) := m]
           && m.id == moduleId && m.ownerName == owner && m.name == name && m.visibility == visibility
           && CanAdmin(Tables().a, caller.value, m)
    {
      if Consistent(Tables()) { CreateModuleMeans(Tables(), caller, owner, name, moduleId, visibility); }
      if !LoggedIn(Tables().a, caller) {
        return LoggedOut;
      }
      if !CanCreate(Tables().a, caller.value, owner) {
        return Forbidden;
      }
      var ownerType := if owner == users[caller.value].username then OwnedByUser else OwnedByOrg;
      if (owner, name) in modules {
        return Conflict;
      }
      if ModuleIdTaken(modules, moduleId) {
        return Failed;
      }
      modules := modules[(owner, name) := Module(moduleId, owner, ownerType, name, visibility)];
      return Success;
    }
  }

  // ---------- consistency ----------

  lemma StepKeepsConsistent(s: State, e: Event)
    requires Consistent(s)
    ensures Consistent(Step(s, e).0)
  {
    StepKeepsUsers(s, e);
    StepKeepsOrgs(s, e);
    StepKeepsOwners(s, e);
  }

  lemma StepKeepsUsers(s: State, e: Event)
    requires UsersOk(s.a)
    ensures UsersOk(Step(s, e).0.a)
  {
    hide MemberCheck, CanCreate, OrgIdTaken, ModuleIdTaken;
  }

  lemma StepKeepsOrgIds(s: State, e: Event, id: string)
    requires OrgIdTaken(s.a, id)
    ensures OrgIdTaken(Step(s, e).0.a, id)
  {
    hide MemberCheck, CanCreate, ModuleIdTaken;
    var n :| n in s.a.orgs && s.a.orgs[n].id == id;
    assert Step(s, e).0.a.orgs[n].id == id;
  }

  // The one way the orgs change, and the three ways the memberships change.
  lemma OrgsChange(s: State, e: Event)
    ensures var a, a' := s.a, Step(s, e).0.a;
      a'.orgs == a.orgs
      || (e.CreateOrg? && e.orgName !in a.orgs && !OrgIdTaken(a, e.orgId)
          && a'.orgs == a.orgs[e.orgName := Org(e.orgId, e.orgName)])
  {
    hide MemberCheck, CanCreate, OrgIdTaken, ModuleIdTaken;
  }

  lemma MembersChange(s: State, e: Event)
    ensures var a, a' := s.a, Step(s, e).0.a;
      || a'.members == a.members
      || (e.CreateOrg? && e.caller.Some? && e.caller.value in a.users && !OrgIdTaken(a, e.orgId)
          && a'.orgs == a.orgs[e.orgName := Org(e.orgId, e.orgName)]
          && a'.members == a.members[(e.orgId, e.caller.value) := Admin])
      || (e.AddMember? && MemberCheck(a, e.caller, e.orgName, e.username, e.fault) == Success && a'.orgs == a.orgs
          && (a.orgs[e.orgName].id, a.userIds[e.username]) !in a.members
          && a'.members == a.members[(a.orgs[e.orgName].id, a.userIds[e.username]) := e.role])
      || (e.RemoveMember? && MemberCheck(a, e.caller, e.orgName, e.username, e.fault) == Success && a'.orgs == a.orgs
          && a'.members == a.members - {(a.orgs[e.orgName].id, a.userIds[e.username])})
  {
    hide CanCreate, CanManageMembers, OrgIdTaken, ModuleIdTaken;
  }

  lemma UsersStay(s: State, e: Event, id: string)
    requires id in s.a.users
    ensures id in Step(s, e).0.a.users
  {
    hide MemberCheck, CanCreate, OrgIdTaken, ModuleIdTaken;
  }

  lemma StepKeepsMembers(s: State, e: Event, k: (string, string))
    requires OrgsOk(s.a) && UsersOk(s.a) && k in Step(s, e).0.a.members
    ensures OrgIdTaken(Step(s, e).0.a, k.0) && k.1 in Step(s, e).0.a.users
  {
    hide Step, CanManageMembers;
    MembersChange(s, e);
    if k in s.a.members {
      StepKeepsOrgIds(s, e, k.0);
    } else {
      assert Step(s, e).0.a.orgs[e.orgName].id == k.0;
    }
    UsersStay(s, e, k.1);
  }

  lemma StepKeepsOrgs(s: State, e: Event)
    requires UsersOk(s.a) && OrgsOk(s.a)
    ensures OrgsOk(Step(s, e).0.a)
  {
    hide Step, UsersOk;
    OrgsChange(s, e);
    forall k | k in Step(s, e).0.a.members ensures OrgIdTaken(Step(s, e).0.a, k.0) && k.1 in Step(s, e).0.a.users {
      StepKeepsMembers(s, e, k);
    }
  }

  lemma StepKeepsOwners(s: State, e: Event)
    requires Consistent(s)
    ensures OwnersOk(Step(s, e).0)
  {
    hide MemberCheck, OrgIdTaken, ModuleIdTaken, OrgsOk;
  }

  /** The tables after a run of handler calls from an empty start. */
  function After(events: seq<Event>): State {
    if events == [] then EMPTY else Step(After(events[..|events| - 1]), events[|events| - 1]).0
  }

  lemma {:induction false} AlwaysConsistent(events: seq<Event>)
    ensures Consistent(After(events))
  {
    if events != [] {
      AlwaysConsistent(events[..|events| - 1]);
      StepKeepsConsistent(After(events[..|events| - 1]), events[|events| - 1]);
    }
  }

  // ---------- who may do what ----------

  // In every reachable state the rights on a module nest, and its writers are exactly its owning user, or
  // exactly the current members of its owning org, also where a user and an org share the owner name; its
  // administrators are exactly that user, or exactly that org's admins; a private one is read by its writers alone.
  lemma WritersAreOwners(events: seq<Event>, k: (string, string), userId: string)
    requires k in After(events).modules
    ensures var s, m := After(events), After(events).modules[k];
      && (CanAdmin(s.a, userId, m) ==> CanWrite(s.a, userId, m))
      && (CanWrite(s.a, userId, m) ==> CanRead(s.a, userId, m))
      && (m.ownerType == OwnedByUser ==>
            && k.0 in s.a.userIds
            && (CanRead(s.a, userId, m) <==> m.visibility == Public || userId == s.a.userIds[k.0])
            && (CanWrite(s.a, userId, m) <==> userId == s.a.userIds[k.0])
            && (CanAdmin(s.a, userId, m) <==> userId == s.a.userIds[k.0]))
      && (m.ownerType == OwnedByOrg ==>
            && k.0 in s.a.orgs
            && (CanRead(s.a, userId, m) <==>
                  m.visibility == Public || (s.a.orgs[k.0].id, userId) in s.a.members)
            && (CanWrite(s.a, userId, m) <==> (s.a.orgs[k.0].id, userId) in s.a.members)
            && (CanAdmin(s.a, userId, m) <==>
                  (s.a.orgs[k.0].id, userId) in s.a.members && s.a.members[(s.a.orgs[k.0].id, userId)] == Admin))
  {
    hide After, CanRead, CanWrite, CanAdmin, OrgsOk;
    AlwaysConsistent(events);
    RightsFromTables(After(events).a, userId, After(events).modules[k]);
    NobodyIsNoMember(After(events).a, userId);
  }

  lemma NobodyIsNoMember(a: Accounts, userId: string)
    requires UsersOk(a) && OrgsOk(a)
    ensures userId == "" ==> userId !in a.users && forall k :: k in a.members ==> k.1 != userId
  {
  }

  // The role that allows a creation is the role its creator then has on the new module, so the creator can
  // write to it, administer it and read it.
  lemma CreatorKeepsRole(events: seq<Event>, e: Event)
    requires e.CreateModule? && Step(After(events), e).1 == Success
    ensures var s, s' := After(events), Step(After(events), e).0;
      var m := s'.modules[(e.owner, e.name)];
      && ModuleRole(s'.a, e.caller.value, m) == OwnerRole(s.a, e.caller.value, e.owner)
      && m == Module(e.moduleId, e.owner, m.ownerType, e.name, e.visibility)
      && CanAdmin(s'.a, e.caller.value, m)
      && (m.ownerType == OwnedByUser <==> ModuleRole(s'.a, e.caller.value, m) == Owner)
  {
    hide After, ModuleIdTaken, OrgIdTaken, MemberCheck, OwnersOk, OrgsOk;
    AlwaysConsistent(events);
  }

  // Module rows never change over a run.
  lemma {:induction false} ModulesStay(events: seq<Event>, n: nat, k: (string, string))
    requires n <= |events| && k in After(events[..n]).modules
    ensures k in After(events).modules && After(events).modules[k] == After(events[..n]).modules[k]
    decreases |events|
  {
    hide Step;
    if n == |events| {
      assert events[..n] == events;
    } else {
      var before := events[..|events| - 1];
      assert before[..n] == events[..n];
      ModulesStay(before, n, k);
      StepKeepsModule(After(before), events[|events| - 1], k);
    }
  }

  lemma StepKeepsModule(s: State, e: Event, k: (string, string))
    requires k in s.modules
    ensures k in Step(s, e).0.modules && Step(s, e).0.modules[k] == s.modules[k]
  {
    hide MemberCheck, CanCreate, OrgIdTaken, ModuleIdTaken;
  }

  // ---------- delegation ----------

  /** The row was inserted by an event of the run and has been there since; the event is the creation of the
      org by this very user, or an addition by a caller who was an admin of the org at that time and whose own
      row traces back in the same way. */
  ghost predicate Delegated(events: seq<Event>, n: nat, orgId: string, userId: string)
    requires n <= |events|
    decreases n, 0
  {
    exists j :: 0 <= j < n && InsertedAndKept(events, j, n, orgId, userId) && ByCreatorOrAdmin(events, j, orgId, userId)
  }

  ghost predicate ByCreatorOrAdmin(events: seq<Event>, j: nat, orgId: string, userId: string)
    requires j < |events|
    decreases j, 1
  {
    var e := events[j];
    || (e.CreateOrg? && e.caller == Some(userId) && e.orgId == orgId)
    || (e.AddMember? && e.caller.Some? && IsAdmin(After(events[..j]), orgId, e.caller.value)
        && Delegated(events, j, orgId, e.caller.value))
  }

  ghost predicate InsertedAndKept(events: seq<Event>, j: nat, n: nat, orgId: string, userId: string)
    requires j < n <= |events|
  {
    !IsMember(After(events[..j]), orgId, userId)
    && forall i :: j < i <= n ==> IsMember(After(events[..i]), orgId, userId)
  }

  lemma StepAfter(events: seq<Event>, n: nat)
    requires 0 < n <= |events|
    ensures After(events[..n]) == Step(After(events[..n - 1]), events[n - 1]).0
  {
    assert events[..n][..n - 1] == events[..n - 1];
  }

  lemma NewRow(s: State, e: Event, orgId: string, userId: string)
    requires !IsMember(s, orgId, userId) && IsMember(Step(s, e).0, orgId, userId)
    ensures e.CreateOrg? || e.AddMember?
    ensures e.CreateOrg? ==> e.caller == Some(userId) && e.orgId == orgId
    ensures e.AddMember? ==> e.caller.Some? && IsAdmin(s, orgId, e.caller.value)
  {
    hide CanCreate, OrgIdTaken, ModuleIdTaken;
  }

  // Every membership row of every reachable state traces back, through callers who were admins when they
  // inserted the next row, to the creation of the org.
  lemma {:induction false} EveryRowIsDelegated(events: seq<Event>, n: nat, orgId: string, userId: string)
    requires n <= |events| && IsMember(After(events[..n]), orgId, userId)
    ensures Delegated(events, n, orgId, userId)
    decreases n
  {
    hide After, Step, IsMember, IsAdmin;
    assert events[..0] == [];
    NobodyAtStart(orgId, userId);
    StepAfter(events, n);
    var s, e := After(events[..n - 1]), events[n - 1];
    if IsMember(s, orgId, userId) {
      EveryRowIsDelegated(events, n - 1, orgId, userId);
      KeptOneLonger(events, n - 1, orgId, userId);
    } else {
      NewRow(s, e, orgId, userId);
      if e.AddMember? {
        AdminIsMember(s, orgId, e.caller.value);
        EveryRowIsDelegated(events, n - 1, orgId, e.caller.value);
      }
      assert InsertedAndKept(events, n - 1, n, orgId, userId);
    }
  }

  lemma NobodyAtStart(orgId: string, userId: string)
    ensures !IsMember(After([]), orgId, userId)
  {
  }

  lemma AdminIsMember(s: State, orgId: string, userId: string)
    requires IsAdmin(s, orgId, userId)
    ensures IsMember(s, orgId, userId)
  {
  }

  lemma KeptOneLonger(events: seq<Event>, n: nat, orgId: string, userId: string)
    requires n < |events| && Delegated(events, n, orgId, userId) && IsMember(After(events[..n + 1]), orgId, userId)
    ensures Delegated(events, n + 1, orgId, userId)
  {
    hide After, IsMember, IsAdmin;
    var j :| 0 <= j < n && InsertedAndKept(events, j, n, orgId, userId) && ByCreatorOrAdmin(events, j, orgId, userId);
    assert InsertedAndKept(events, j, n + 1, orgId, userId);
  }

  /** A call that succeeds in making the user a member: as the creator of the org, or as one who is added. */
  predicate Joins(s: State, e: Event, orgId: string, userId: string) {
    Step(s, e).1 == Success
    && ((e.CreateOrg? && e.orgId == orgId && e.caller == Some(userId))
        || (e.AddMember? && e.orgName in s.a.orgs && s.a.orgs[e.orgName].id == orgId
            && e.username in s.a.userIds && s.a.userIds[e.username] == userId))
  }

  /** A call that succeeds in removing the user, who may be the caller, from the org. */
  predicate Leaves(s: State, e: Event, orgId: string, userId: string) {
    Step(s, e).1 == Success && e.RemoveMember?
    && e.orgName in s.a.orgs && s.a.orgs[e.orgName].id == orgId
    && e.username in s.a.userIds && s.a.userIds[e.username] == userId
  }

  lemma JoinOrLeave(s: State, e: Event, orgId: string, userId: string)
    ensures IsMember(Step(s, e).0, orgId, userId) <==>
      Joins(s, e, orgId, userId) || (IsMember(s, orgId, userId) && !Leaves(s, e, orgId, userId))
    ensures Joins(s, e, orgId, userId) ==> !IsMember(s, orgId, userId)
  {
    hide CanCreate, CanManageMembers, OrgIdTaken, ModuleIdTaken;
  }

  /** The user joined at the j-th call and has not left since. */
  ghost predicate JoinedAndStayed(events: seq<Event>, j: nat, n: nat, orgId: string, userId: string)
    requires j < n <= |events|
  {
    && Joins(After(events[..j]), events[j], orgId, userId)
    && forall i :: j < i < n ==> !Leaves(After(events[..i]), events[i], orgId, userId)
  }

  // A user is a member exactly when some call that succeeded made them one, and no call that succeeded has
  // removed them since.
  lemma {:induction false} MembersByHistory(events: seq<Event>, n: nat, orgId: string, userId: string)
    requires n <= |events|
    ensures IsMember(After(events[..n]), orgId, userId) <==>
      exists j :: 0 <= j < n && JoinedAndStayed(events, j, n, orgId, userId)
    decreases n
  {
    hide After, Step, IsMember, Joins, Leaves;
    if n == 0 {
      assert events[..0] == [];
      NobodyAtStart(orgId, userId);
    } else {
      var s, e := After(events[..n - 1]), events[n - 1];
      StepAfter(events, n);
      MembersByHistory(events, n - 1, orgId, userId);
      JoinOrLeave(s, e, orgId, userId);
      forall j | 0 <= j < n - 1
        ensures JoinedAndStayed(events, j, n, orgId, userId) <==>
          JoinedAndStayed(events, j, n - 1, orgId, userId) && !Leaves(s, e, orgId, userId)
      {
      }
      if Joins(s, e, orgId, userId) {
        assert JoinedAndStayed(events, n - 1, n, orgId, userId);
      } else if IsMember(s, orgId, userId) && !Leaves(s, e, orgId, userId) {
        var j :| 0 <= j < n - 1 && JoinedAndStayed(events, j, n - 1, orgId, userId);
        assert JoinedAndStayed(events, j, n, orgId, userId);
      }
    }
  }

  // A membership row keeps its role for as long as it is there: adding a member again changes nothing.
  lemma {:induction false} RoleFixedUntilRemoval(events: seq<Event>, n: nat, orgId: string, userId: string)
    requires n <= |events| && forall i :: n <= i <= |events| ==> IsMember(After(events[..i]), orgId, userId)
    ensures IsMember(After(events[..n]), orgId, userId) && IsMember(After(events), orgId, userId)
    ensures After(events).a.members[(orgId, userId)] == After(events[..n]).a.members[(orgId, userId)]
    decreases |events|
  {
    assert events[..|events|] == events;
    if n < |events| {
      var before := events[..|events| - 1];
      forall i | 0 <= i <= |before| ensures before[..i] == events[..i] {}
      RoleFixedUntilRemoval(before, n, orgId, userId);
      StepKeepsRole(After(before), events[|events| - 1], orgId, userId);
    }
  }

  lemma StepKeepsRole(s: State, e: Event, orgId: string, userId: string)
    requires IsMember(s, orgId, userId) && IsMember(Step(s, e).0, orgId, userId)
    ensures Step(s, e).0.a.members[(orgId, userId)] == s.a.members[(orgId, userId)]
  {
    hide CanCreate, OrgIdTaken, ModuleIdTaken, MemberCheck;
  }

  lemma NoAdminStep(s: State, e: Event, orgId: string)
    requires Consistent(s) && OrgIdTaken(s.a, orgId) && forall u :: !IsAdmin(s, orgId, u)
    ensures var s' := Step(s, e).0;
      && OrgIdTaken(s'.a, orgId)
      && (forall u :: !IsAdmin(s', orgId, u))
      && (forall u :: IsMember(s', orgId, u) <==> IsMember(s, orgId, u))
  {
    hide Step, OwnersOk, UsersOk;
    var s' := Step(s, e).0;
    StepKeepsOrgIds(s, e, orgId);
    MembersChange(s, e);
    if (e.AddMember? || e.RemoveMember?) && e.caller.Some? {
      assert !IsAdmin(s, orgId, e.caller.value);
    }
    forall u ensures IsMember(s', orgId, u) <==> IsMember(s, orgId, u) {}
    forall u ensures !IsAdmin(s', orgId, u) { assert !IsAdmin(s, orgId, u); }
  }

  // An org that exists and has no admin never has one again, and its members never change.
  lemma {:induction false} NoAdminForever(events: seq<Event>, n: nat, orgId: string)
    requires n <= |events| && OrgIdTaken(After(events[..n]).a, orgId)
    requires forall u :: !IsAdmin(After(events[..n]), orgId, u)
    ensures OrgIdTaken(After(events).a, orgId)
    ensures forall u :: !IsAdmin(After(events), orgId, u)
    ensures forall u :: IsMember(After(events), orgId, u) <==> IsMember(After(events[..n]), orgId, u)
    decreases |events|
  {
    hide IsAdmin, IsMember, Step, Consistent, OrgIdTaken;
    if n == |events| {
      assert events[..n] == events;
    } else {
      var before := events[..|events| - 1];
      assert before[..n] == events[..n];
      NoAdminForever(before, n, orgId);
      AlwaysConsistent(before);
      NoAdminStep(After(before), events[|events| - 1], orgId);
    }
  }

  /** The org exists and nobody is its admin. */
  ghost predicate Adminless(s: State, orgId: string) {
    OrgIdTaken(s.a, orgId) && forall u :: !IsAdmin(s, orgId, u)
  }

  /** The call creates the org, and its second insertion fails. */
  predicate HalfCreates(s: State, e: Event, orgId: string) {
    && e.CreateOrg? && e.memberFails && e.orgId == orgId
    && LoggedIn(s.a, e.caller) && e.orgName !in s.a.orgs && !OrgIdTaken(s.a, orgId)
  }

  /** The org's only admin removes themself. */
  ghost predicate LastAdminLeaves(s: State, e: Event, orgId: string) {
    && e.RemoveMember? && e.fault == NoFault && LoggedIn(s.a, e.caller)
    && e.orgName in s.a.orgs && s.a.orgs[e.orgName].id == orgId
    && e.username in s.a.userIds && s.a.userIds[e.username] == e.caller.value
    && IsAdmin(s, orgId, e.caller.value) && forall u :: IsAdmin(s, orgId, u) ==> u == e.caller.value
  }

  ghost predicate Orphans(s: State, e: Event, orgId: string) {
    HalfCreates(s, e, orgId) || LastAdminLeaves(s, e, orgId)
  }

  lemma HalfCreationOrphans(s: State, e: Event, orgId: string)
    requires Consistent(s) && HalfCreates(s, e, orgId)
    ensures Adminless(Step(s, e).0, orgId)
  {
    hide UsersOk, OwnersOk;
    assert Step(s, e).0.a.orgs[e.orgName].id == orgId;
    NoMembersYet(s, orgId);
    forall u ensures !IsMember(s, orgId, u) {}
  }

  lemma LastRemovalOrphans(s: State, e: Event, orgId: string)
    requires Consistent(s) && LastAdminLeaves(s, e, orgId)
    ensures Adminless(Step(s, e).0, orgId)
  {
    hide OwnersOk, OrgsOk, MemberCheck, CanCreate, ModuleIdTaken;
    assert s.a.orgs[e.orgName].id == orgId;
    MemberCheckMeans(s, e.caller, e.orgName, e.username, e.fault);
    StepKeepsOrgIds(s, e, orgId);
    forall u ensures !IsAdmin(Step(s, e).0, orgId, u) { assert IsAdmin(s, orgId, u) ==> u == e.caller.value; }
  }

  lemma NewOrgOrphaned(s: State, e: Event, orgId: string)
    requires Consistent(s) && !OrgIdTaken(s.a, orgId) && Adminless(Step(s, e).0, orgId)
    ensures HalfCreates(s, e, orgId)
  {
    hide Step, UsersOk, OwnersOk;
    NoMembersYet(s, orgId);
    OrgsChange(s, e);
    var s' := Step(s, e).0;
    var n :| n in s'.a.orgs && s'.a.orgs[n].id == orgId;
    CreateOrgShape(s, e);
    assert e.caller.Some? ==> !IsAdmin(s', orgId, e.caller.value);
  }

  lemma OldOrgOrphaned(s: State, e: Event, orgId: string, u: string)
    requires Consistent(s) && IsAdmin(s, orgId, u) && Adminless(Step(s, e).0, orgId)
    ensures LastAdminLeaves(s, e, orgId)
  {
    hide Step, OwnersOk, MemberCheck;
    MembersChange(s, e);
    var s' := Step(s, e).0;
    assert OrgIdTaken(s.a, (orgId, u).0);
    assert !IsAdmin(s', orgId, u);
    assert e.RemoveMember?;
    MemberCheckMeans(s, e.caller, e.orgName, e.username, e.fault);
    forall x | IsAdmin(s, orgId, x) ensures x == u { assert !IsAdmin(s', orgId, x); }
  }

  // One call leaves an org without an admin exactly when it was without one before, or the call is one of the two.
  lemma OrphaningStep(s: State, e: Event, orgId: string)
    requires Consistent(s)
    ensures Adminless(Step(s, e).0, orgId) <==> Adminless(s, orgId) || Orphans(s, e, orgId)
  {
    hide Step, Consistent, OrgIdTaken, IsAdmin, HalfCreates, LastAdminLeaves;
    if Adminless(s, orgId) { NoAdminStep(s, e, orgId); }
    if HalfCreates(s, e, orgId) { HalfCreationOrphans(s, e, orgId); }
    if LastAdminLeaves(s, e, orgId) { LastRemovalOrphans(s, e, orgId); }
    if Adminless(Step(s, e).0, orgId) && !Adminless(s, orgId) {
      if OrgIdTaken(s.a, orgId) {
        var u :| IsAdmin(s, orgId, u);
        OldOrgOrphaned(s, e, orgId, u);
      } else {
        NewOrgOrphaned(s, e, orgId);
      }
    }
  }

  // At any moment of a run an org exists without an admin exactly when some call before created it without its
  // creator's row, or some call before was its only admin's removal of themself.
  lemma {:induction false} AdminlessExactly(events: seq<Event>, n: nat, orgId: string)
    requires n <= |events|
    ensures Adminless(After(events[..n]), orgId) <==>
      exists j :: 0 <= j < n && Orphans(After(events[..j]), events[j], orgId)
    decreases n
  {
    hide After, Step, Adminless, Orphans, Consistent;
    if n == 0 {
      assert events[..0] == [];
      NoOrgsAtStart(orgId);
    } else {
      AlwaysConsistent(events[..n - 1]);
      StepAfter(events, n);
      OrphaningStep(After(events[..n - 1]), events[n - 1], orgId);
      AdminlessExactly(events, n - 1, orgId);
    }
  }

  lemma NoOrgsAtStart(orgId: string)
    ensures !Adminless(After([]), orgId)
  {
  }

  // Both happen: a registered user creates one org without its membership row, and leaves another that is hers;
  // no calls after that give either an admin.
  lemma OrphansHappen(more: seq<Event>)
    ensures Adminless(After([Register("u", "ann"), CreateOrg(Some("u"), "acme", "o", true)] + more), "o")
    ensures Adminless(After([Register("u", "ann"), CreateOrg(Some("u"), "acme", "o", false),
                             RemoveMember(Some("u"), "acme", "ann", NoFault)] + more), "o")
  {
    hide Adminless, After, Orphans;
    var half := [Register("u", "ann"), CreateOrg(Some("u"), "acme", "o", true)] + more;
    AnnRegistered();
    assert half[..1] == [Register("u", "ann")] && half[..|half|] == half;
    assert Orphans(After(half[..1]), half[1], "o");
    AdminlessExactly(half, |half|, "o");
    var left := [Register("u", "ann"), CreateOrg(Some("u"), "acme", "o", false),
                 RemoveMember(Some("u"), "acme", "ann", NoFault)] + more;
    AnnAlone();
    assert left[..2] == [Register("u", "ann"), CreateOrg(Some("u"), "acme", "o", false)] && left[..|left|] == left;
    assert Orphans(After(left[..2]), left[2], "o");
    AdminlessExactly(left, |left|, "o");
  }

  lemma AnnRegistered()
    ensures Orphans(After([Register("u", "ann")]), CreateOrg(Some("u"), "acme", "o", true), "o")
    ensures After([Register("u", "ann")])
      == State(Accounts(map["u" := User("u", "ann")], map["ann" := "u"], map[], map[]), map[])
  {
    assert [Register("u", "ann")][..0] == [];
    assert After([]) == EMPTY;
  }

  lemma AnnAlone()
    ensures Orphans(After([Register("u", "ann"), CreateOrg(Some("u"), "acme", "o", false)]),
                    RemoveMember(Some("u"), "acme", "ann", NoFault), "o")
  {
    var register, whole := Register("u", "ann"), CreateOrg(Some("u"), "acme", "o", false);
    var leave := RemoveMember(Some("u"), "acme", "ann", NoFault);
    AnnRegistered();
    assert [register, whole][..1] == [register];
    var s := Step(After([register]), whole).0;
    assert After([register, whole]) == s;
    assert s.a.members == map[("o", "u") := Admin] && s.a.orgs == map["acme" := Org("o", "acme")];
    assert IsAdmin(s, "o", "u");
    assert forall u :: IsAdmin(s, "o", u) ==> u == "u";
  }
}
