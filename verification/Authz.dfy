/** Role resolution from the live tables, and the fixed policy that the roles are looked up in. */
module Authz {
  import opened Model

  datatype Role = Owner | OrgAdmin | OrgMember | Anyone
  datatype Resource = ModuleResource | OrgResource
  datatype Action = Read | Write | Administer | Create | ManageMembers

  const POLICY: set<(Role, Resource, Action)> := {
    (Owner, ModuleResource, Read),
    (Owner, ModuleResource, Write),
    (Owner, ModuleResource, Administer),
    (Owner, ModuleResource, Create),
    (OrgAdmin, ModuleResource, Read),
    (OrgAdmin, ModuleResource, Write),
    (OrgAdmin, ModuleResource, Administer),
    (OrgAdmin, ModuleResource, Create),
    (OrgAdmin, OrgResource, ManageMembers),
    (OrgMember, ModuleResource, Read),
    (OrgMember, ModuleResource, Write)
  }

  predicate Enforce(role: Role, resource: Resource, action: Action) {
    (role, resource, action) in POLICY
  }

  /** The role of a user in an org. */
  function OrgRoleOf(a: Accounts, userId: string, orgId: string): Role {
    if userId == "" || (orgId, userId) !in a.members then Anyone
    else if a.members[(orgId, userId)] == Admin then OrgAdmin
    else OrgMember
  }

  /** The role of a user on an existing module. */
  function ModuleRole(a: Accounts, userId: string, m: Module): Role {
    if userId == "" then Anyone
    else if m.ownerType == OwnedByUser then
      if userId in a.users && a.users[userId].username == m.ownerName then Owner else Anyone
    else if m.ownerName in a.orgs then OrgRoleOf(a, userId, a.orgs[m.ownerName].id)
    else Anyone
  }

  /** The role of a user towards an owner name, under which a module is about to be created. */
  function OwnerRole(a: Accounts, userId: string, ownerName: string): Role {
    if userId == "" then Anyone
    else if userId in a.users && a.users[userId].username == ownerName then Owner
    else if ownerName in a.orgs then OrgRoleOf(a, userId, a.orgs[ownerName].id)
    else Anyone
  }

  predicate CanRead(a: Accounts, userId: string, m: Module) {
    m.visibility == Public || Enforce(ModuleRole(a, userId, m), ModuleResource, Read)
  }

  predicate CanWrite(a: Accounts, userId: string, m: Module) {
    Enforce(ModuleRole(a, userId, m), ModuleResource, Write)
  }

  predicate CanAdmin(a: Accounts, userId: string, m: Module) {
    Enforce(ModuleRole(a, userId, m), ModuleResource, Administer)
  }

  predicate CanCreate(a: Accounts, userId: string, ownerName: string) {
    Enforce(OwnerRole(a, userId, ownerName), ModuleResource, Create)
  }

  predicate CanManageMembers(a: Accounts, userId: string, orgId: string) {
    Enforce(OrgRoleOf(a, userId, orgId), OrgResource, ManageMembers)
  }

  /** The owner type both creation handlers store. */
  function OwnerTypeFor(caller: User, ownerName: string): OwnerType {
    if ownerName == caller.username then OwnedByUser else OwnedByOrg
  }

  // ---------- the rights, read off the tables ----------

  /** The module is a user's, and this user has the owner's name. */
  predicate OwnsByName(a: Accounts, userId: string, m: Module) {
    m.ownerType == OwnedByUser && userId in a.users && a.users[userId].username == m.ownerName
  }

  /** The module is an org's, and there is a membership row for this user. */
  predicate InOwnerOrg(a: Accounts, userId: string, m: Module) {
    m.ownerType == OwnedByOrg && m.ownerName in a.orgs && (a.orgs[m.ownerName].id, userId) in a.members
  }

  predicate AdminInOwnerOrg(a: Accounts, userId: string, m: Module) {
    InOwnerOrg(a, userId, m) && a.members[(a.orgs[m.ownerName].id, userId)] == Admin
  }

  /** The caller is the user who owns the module, or a member of the org that does. */
  predicate Writable(a: Accounts, userId: string, m: Module) {
    userId != "" && (OwnsByName(a, userId, m) || InOwnerOrg(a, userId, m))
  }

  /** The caller is the user who owns the module, or an admin of the org that does. */
  predicate Administrable(a: Accounts, userId: string, m: Module) {
    userId != "" && (OwnsByName(a, userId, m) || AdminInOwnerOrg(a, userId, m))
  }

  predicate Readable(a: Accounts, userId: string, m: Module) {
    m.visibility == Public || Writable(a, userId, m)
  }

  // Who may read, write and administer a module: the user who owns it; for an org's module its members, and its
  // admins for administration; and anyone may read a public one. The empty user ID, which stands for a caller who is
  // not logged in, has no right but that.
  lemma RightsFromTables(a: Accounts, userId: string, m: Module)
    ensures CanRead(a, userId, m) <==> Readable(a, userId, m)
    ensures CanWrite(a, userId, m) <==> Writable(a, userId, m)
    ensures CanAdmin(a, userId, m) <==> Administrable(a, userId, m)
  {
  }

  // Who may create under an owner name: the user of that name, and the admins of the org of that name.
  lemma CreationFromTables(a: Accounts, userId: string, ownerName: string)
    ensures CanCreate(a, userId, ownerName) <==>
      && userId != ""
      && ((userId in a.users && a.users[userId].username == ownerName)
          || (ownerName in a.orgs && (a.orgs[ownerName].id, userId) in a.members
              && a.members[(a.orgs[ownerName].id, userId)] == Admin))
  {
  }

  // ---------- lookups that fail ----------

  /** Which lookup of a role resolution fails for a reason other than a missing row. */
  datatype LookupFaults = LookupFaults(userRead: bool, orgRead: bool, memberRead: bool)

  function ModuleRoleUnder(a: Accounts, userId: string, m: Module, f: LookupFaults): Role {
    if userId == "" then Anyone
    else if m.ownerType == OwnedByUser then
      if !f.userRead && userId in a.users && a.users[userId].username == m.ownerName then Owner else Anyone
    else if f.orgRead || m.ownerName !in a.orgs || f.memberRead then Anyone
    else OrgRoleOf(a, userId, a.orgs[m.ownerName].id)
  }

  /** A failing lookup of the org is an error, which denies; one of the user goes on to the org. */
  function OwnerRoleUnder(a: Accounts, userId: string, ownerName: string, f: LookupFaults): Option<Role> {
    if userId == "" then Some(Anyone)
    else if !f.userRead && userId in a.users && a.users[userId].username == ownerName then Some(Owner)
    else if f.orgRead then None
    else if ownerName !in a.orgs || f.memberRead then Some(Anyone)
    else Some(OrgRoleOf(a, userId, a.orgs[ownerName].id))
  }

  // A lookup that fails never allows what would be denied without it.
  lemma FaultsOnlyDeny(a: Accounts, userId: string, m: Module, ownerName: string, action: Action, f: LookupFaults)
    ensures Enforce(ModuleRoleUnder(a, userId, m, f), ModuleResource, action) ==>
      Enforce(ModuleRole(a, userId, m), ModuleResource, action)
    ensures var r := OwnerRoleUnder(a, userId, ownerName, f);
      r.Some? && Enforce(r.value, ModuleResource, Create) ==> CanCreate(a, userId, ownerName)
  {
  }

  // Which rights are left when lookups fail: those of an owning user need the lookup of the user, those of the members
  // of an org need the lookups of the org and of the membership. A creation is answered with an error, and not just
  // refused, exactly when the caller is not found to be the user of the name and the lookup of the org fails.
  lemma RightsUnderFaults(a: Accounts, userId: string, m: Module, ownerName: string, f: LookupFaults)
    ensures Enforce(ModuleRoleUnder(a, userId, m, f), ModuleResource, Write) <==>
      && userId != ""
      && ((OwnsByName(a, userId, m) && !f.userRead) || (InOwnerOrg(a, userId, m) && !f.orgRead && !f.memberRead))
    ensures Enforce(ModuleRoleUnder(a, userId, m, f), ModuleResource, Administer) <==>
      && userId != ""
      && ((OwnsByName(a, userId, m) && !f.userRead) || (AdminInOwnerOrg(a, userId, m) && !f.orgRead && !f.memberRead))
    ensures var r := OwnerRoleUnder(a, userId, ownerName, f);
      var himself := !f.userRead && userId in a.users && a.users[userId].username == ownerName;
      var ofOrg := !f.orgRead && !f.memberRead && ownerName in a.orgs && (a.orgs[ownerName].id, userId) in a.members
        && a.members[(a.orgs[ownerName].id, userId)] == Admin;
      && (r.None? <==> userId != "" && !himself && f.orgRead)
      && (r.Some? && Enforce(r.value, ModuleResource, Create) <==> userId != "" && (himself || ofOrg))
  {
  }

  // The role that allows a creation is the role without faults, except exactly where the lookup of the user fails
  // and the user is an admin of an org of their own name: then it is the org's.
  lemma CreationRoleUnderFaults(a: Accounts, userId: string, ownerName: string, f: LookupFaults)
    requires var r := OwnerRoleUnder(a, userId, ownerName, f); r.Some? && Enforce(r.value, ModuleResource, Create)
    ensures OwnerRoleUnder(a, userId, ownerName, f).value != OwnerRole(a, userId, ownerName) <==>
      f.userRead && userId in a.users && a.users[userId].username == ownerName
    ensures OwnerRoleUnder(a, userId, ownerName, f).value != OwnerRole(a, userId, ownerName) ==>
      OwnerRoleUnder(a, userId, ownerName, f).value == OrgAdmin && OwnerRole(a, userId, ownerName) == Owner
  {
  }
}
