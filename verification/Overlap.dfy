/** The organisation handlers when their calls overlap: what they check and what they write are separate backend
    calls, between which anything can happen. */
module Overlap {
  import opened Model
  import opened Authz
  import opened Tenancy

  /** A call that has passed its checks and still has a write to make. A new org is there before its creator's row. */
  datatype Pending =
    | Adding(orgId: string, username: string, role: OrgRole)
    | Removing(orgId: string, username: string)
    | Founding(orgId: string, userId: string)

  datatype System = System(s: State, pending: map<nat, Pending>)

  const INITIAL: System := System(EMPTY, map[])

  /** A call that nothing interrupts; or the checks of a call, and later its write, which may fail. A call whose
      write never comes has stopped for good. */
  datatype Action =
    | Whole(e: Event)
    | BeginAdd(pid: nat, caller: Option<string>, orgName: string, username: string, role: OrgRole)
    | BeginRemove(pid: nat, caller: Option<string>, orgName: string, username: string)
    | BeginCreate(pid: nat, caller: Option<string>, orgName: string, orgId: string)
    | Finish(pid: nat, fails: bool)

  /** The caller may manage the members of the org that has this name. */
  predicate Manages(a: Accounts, caller: Option<string>, orgName: string) {
    LoggedIn(a, caller) && orgName in a.orgs && CanManageMembers(a, caller.value, a.orgs[orgName].id)
  }

  function Insert(s: State, k: (string, string), role: OrgRole): State {
    if k in s.a.members then s else s.(a := s.a.(members := s.a.members[k := role]))
  }

  function Complete(s: State, p: Pending): State {
    match p
    case Adding(orgId, username, role) =>
      if username in s.a.userIds then Insert(s, (orgId, s.a.userIds[username]), role) else s
    case Removing(orgId, username) =>
      if username in s.a.userIds then s.(a := s.a.(members := s.a.members - {(orgId, s.a.userIds[username])})) else s
    case Founding(orgId, userId) => Insert(s, (orgId, userId), Admin)
  }

  function Act(x: System, act: Action): System {
    var a := x.s.a;
    match act
    case Whole(e) => x.(s := Step(x.s, e).0)
    case BeginAdd(pid, caller, orgName, username, role) =>
      if pid in x.pending || !Manages(a, caller, orgName) then x
      else x.(pending := x.pending[pid := Adding(a.orgs[orgName].id, username, role)])
    case BeginRemove(pid, caller, orgName, username) =>
      if pid in x.pending || !Manages(a, caller, orgName) then x
      else x.(pending := x.pending[pid := Removing(a.orgs[orgName].id, username)])
    case BeginCreate(pid, caller, orgName, orgId) =>
      if pid in x.pending || !LoggedIn(a, caller) || orgName in a.orgs || OrgIdTaken(a, orgId) then x
      else System(x.s.(a := a.(orgs := a.orgs[orgName := Org(orgId, orgName)])),
                  x.pending[pid := Founding(orgId, caller.value)])
    case Finish(pid, fails) =>
      if pid !in x.pending then x
      else System(if fails then x.s else Complete(x.s, x.pending[pid]), x.pending - {pid})
  }

  /** The system after a run from an empty start. */
  function Reach(acts: seq<Action>): System {
    if acts == [] then INITIAL else Act(Reach(acts[..|acts| - 1]), acts[|acts| - 1])
  }

  lemma NothingYet()
    ensures Reach([]) == INITIAL
  {
  }

  lemma ReachNext(acts: seq<Action>, n: nat)
    requires 0 < n <= |acts|
    ensures Reach(acts[..n]) == Act(Reach(acts[..n - 1]), acts[n - 1])
  {
    assert acts[..n][..n - 1] == acts[..n - 1];
  }

  // ---------- a call that nothing interrupts ----------

  // The checks of a call followed at once by its write are the call that nothing interrupts.
  lemma UninterruptedAdd(x: System, pid: nat, caller: Option<string>, orgName: string, username: string, role: OrgRole)
    requires pid !in x.pending
    ensures Act(Act(x, BeginAdd(pid, caller, orgName, username, role)), Finish(pid, false))
      == Act(x, Whole(AddMember(caller, orgName, username, role, NoFault)))
  {
    var begun := Act(x, BeginAdd(pid, caller, orgName, username, role));
    assert x.pending[pid := Adding("", "", role)] - {pid} == x.pending;
    assert begun != x ==> begun.pending - {pid} == x.pending;
  }

  lemma UninterruptedRemove(x: System, pid: nat, caller: Option<string>, orgName: string, username: string)
    requires pid !in x.pending
    ensures Act(Act(x, BeginRemove(pid, caller, orgName, username)), Finish(pid, false))
      == Act(x, Whole(RemoveMember(caller, orgName, username, NoFault)))
  {
    var begun := Act(x, BeginRemove(pid, caller, orgName, username));
    assert begun != x ==> begun.pending - {pid} == x.pending;
  }

  lemma UninterruptedCreate(x: System, pid: nat, caller: Option<string>, orgName: string, orgId: string, fails: bool)
    requires pid !in x.pending
    ensures Act(Act(x, BeginCreate(pid, caller, orgName, orgId)), Finish(pid, fails))
      == Act(x, Whole(CreateOrg(caller, orgName, orgId, fails)))
  {
    hide OrgIdTaken;
    var begun := Act(x, BeginCreate(pid, caller, orgName, orgId));
    assert begun != x ==> begun.pending - {pid} == x.pending;
  }

  // ---------- what holds in every reachable state ----------

  ghost predicate PendingOk(s: State, p: Pending) {
    OrgIdTaken(s.a, p.orgId) && (p.Founding? ==> p.userId in s.a.users)
  }

  ghost predicate SystemOk(x: System) {
    Consistent(x.s) && forall pid :: pid in x.pending ==> PendingOk(x.s, x.pending[pid])
  }

  lemma SameOrgs(a: Accounts, a': Accounts)
    requires a'.orgs == a.orgs
    ensures forall id :: OrgIdTaken(a', id) <==> OrgIdTaken(a, id)
  {
  }

  lemma RowKeepsConsistent(s: State, k: (string, string), role: OrgRole)
    requires Consistent(s) && OrgIdTaken(s.a, k.0) && k.1 in s.a.users
    ensures Consistent(Insert(s, k, role))
  {
    hide OrgIdTaken;
    SameOrgs(s.a, Insert(s, k, role).a);
  }

  lemma RemovalKeepsConsistent(s: State, k: (string, string))
    requires Consistent(s)
    ensures Consistent(s.(a := s.a.(members := s.a.members - {k})))
  {
    hide OrgIdTaken;
    SameOrgs(s.a, s.a.(members := s.a.members - {k}));
  }

  lemma CompleteKeepsConsistent(s: State, p: Pending)
    requires Consistent(s) && PendingOk(s, p)
    ensures Consistent(Complete(s, p))
    ensures Complete(s, p).a.orgs == s.a.orgs
    ensures Complete(s, p).a.users == s.a.users && Complete(s, p).a.userIds == s.a.userIds
  {
    hide OrgIdTaken, OrgsOk, OwnersOk;
    match p
    case Adding(orgId, username, role) =>
      if username in s.a.userIds { RowKeepsConsistent(s, (orgId, s.a.userIds[username]), role); }
    case Founding(orgId, userId) => RowKeepsConsistent(s, (orgId, userId), Admin);
    case Removing(orgId, username) =>
      if username in s.a.userIds { RemovalKeepsConsistent(s, (orgId, s.a.userIds[username])); }
  }

  lemma NewOrgKeepsConsistent(s: State, orgName: string, orgId: string)
    requires Consistent(s) && orgName !in s.a.orgs && !OrgIdTaken(s.a, orgId)
    ensures var s' := s.(a := s.a.(orgs := s.a.orgs[orgName := Org(orgId, orgName)]));
      Consistent(s') && OrgIdTaken(s'.a, orgId) && forall id :: OrgIdTaken(s.a, id) ==> OrgIdTaken(s'.a, id)
  {
    var s' := s.(a := s.a.(orgs := s.a.orgs[orgName := Org(orgId, orgName)]));
    assert s'.a.orgs[orgName].id == orgId;
    forall id | OrgIdTaken(s.a, id) ensures OrgIdTaken(s'.a, id) {
      var n :| n in s.a.orgs && s.a.orgs[n].id == id;
      assert s'.a.orgs[n].id == id;
    }
  }

  lemma ManagesMeansAdmin(s: State, caller: Option<string>, orgName: string)
    requires Consistent(s)
    ensures Manages(s.a, caller, orgName) <==>
      caller.Some? && caller.value in s.a.users && orgName in s.a.orgs && IsAdmin(s, s.a.orgs[orgName].id, caller.value)
    ensures orgName in s.a.orgs ==> OrgIdTaken(s.a, s.a.orgs[orgName].id)
  {
  }

  lemma ActKeepsOk(x: System, act: Action)
    requires SystemOk(x)
    ensures SystemOk(Act(x, act))
  {
    hide Consistent, OrgIdTaken, Step, Complete, CanManageMembers;
    match act {
      case Whole(e) =>
        StepKeepsConsistent(x.s, e);
        forall pid | pid in x.pending ensures PendingOk(Step(x.s, e).0, x.pending[pid]) {
          StepKeepsOrgIds(x.s, e, x.pending[pid].orgId);
          if x.pending[pid].Founding? { UsersStay(x.s, e, x.pending[pid].userId); }
        }
      case BeginAdd(pid, caller, orgName, username, role) => ManagesMeansAdmin(x.s, caller, orgName);
      case BeginRemove(pid, caller, orgName, username) => ManagesMeansAdmin(x.s, caller, orgName);
      case BeginCreate(pid, caller, orgName, orgId) =>
        if orgName !in x.s.a.orgs && !OrgIdTaken(x.s.a, orgId) { NewOrgKeepsConsistent(x.s, orgName, orgId); }
      case Finish(pid, fails) =>
        if pid in x.pending {
          CompleteKeepsConsistent(x.s, x.pending[pid]);
          SameOrgs(x.s.a, Complete(x.s, x.pending[pid]).a);
        }
    }
  }

  lemma {:induction false} AlwaysOk(acts: seq<Action>)
    ensures SystemOk(Reach(acts))
  {
    if acts == [] {
      assert Reach([]) == INITIAL;
    } else {
      AlwaysOk(acts[..|acts| - 1]);
      ActKeepsOk(Reach(acts[..|acts| - 1]), acts[|acts| - 1]);
    }
  }

  // ---------- an org without an admin ----------

  /** A pending write that would make someone an admin of the org. */
  predicate Promotes(p: Pending, orgId: string) {
    p.orgId == orgId && (p.Founding? || (p.Adding? && p.role == Admin))
  }

  /** The pending writes that would make someone an admin of the org. */
  function Promotions(x: System, orgId: string): set<nat> {
    set pid | pid in x.pending && Promotes(x.pending[pid], orgId)
  }

  lemma CompleteGivesNoAdmin(s: State, p: Pending, orgId: string)
    requires Adminless(s, orgId) && !Promotes(p, orgId)
    ensures Adminless(Complete(s, p), orgId)
  {
    var s' := Complete(s, p);
    SameOrgs(s.a, s'.a);
    forall u ensures !IsAdmin(s', orgId, u) { assert !IsAdmin(s, orgId, u); }
  }

  lemma NewOrgGivesNoAdmin(s: State, orgName: string, newId: string, orgId: string)
    requires Consistent(s) && Adminless(s, orgId) && orgName !in s.a.orgs && !OrgIdTaken(s.a, newId)
    ensures Adminless(s.(a := s.a.(orgs := s.a.orgs[orgName := Org(newId, orgName)])), orgId)
  {
    hide Consistent, OrgIdTaken;
    NewOrgKeepsConsistent(s, orgName, newId);
    var s' := s.(a := s.a.(orgs := s.a.orgs[orgName := Org(newId, orgName)]));
    forall u ensures !IsAdmin(s', orgId, u) { assert !IsAdmin(s, orgId, u); }
  }

  /** The write finds its user, and no row of theirs. */
  predicate TakesEffect(s: State, p: Pending) {
    match p
    case Adding(orgId, username, _) => username in s.a.userIds && (orgId, s.a.userIds[username]) !in s.a.members
    case Founding(orgId, userId) => (orgId, userId) !in s.a.members
    case Removing(_, _) => true
  }

  /** The action makes a pending write that gives the org an admin. */
  predicate GivesAdmin(x: System, act: Action, orgId: string) {
    act.Finish? && !act.fails && act.pid in Promotions(x, orgId) && TakesEffect(x.s, x.pending[act.pid])
  }

  lemma CompleteGivesAdmin(s: State, p: Pending, orgId: string)
    requires Adminless(s, orgId) && Promotes(p, orgId)
    ensures Adminless(Complete(s, p), orgId) <==> !TakesEffect(s, p)
  {
    hide OrgIdTaken;
    if TakesEffect(s, p) {
      assert IsAdmin(Complete(s, p), orgId, if p.Founding? then p.userId else s.a.userIds[p.username]);
    }
  }

  // While an org has no admin, no new write is begun that would give it one; and an action leaves it without one
  // exactly when it is not such a write taking effect.
  lemma AdminlessAct(x: System, act: Action, orgId: string)
    requires SystemOk(x) && Adminless(x.s, orgId)
    ensures forall pid :: pid in Promotions(Act(x, act), orgId) ==>
      pid in Promotions(x, orgId) && Act(x, act).pending[pid] == x.pending[pid]
    ensures Adminless(Act(x, act).s, orgId) <==> !GivesAdmin(x, act, orgId)
  {
    hide Consistent, OrgIdTaken, Step, Complete, CanManageMembers, IsAdmin, TakesEffect;
    match act {
      case Whole(e) => NoAdminStep(x.s, e, orgId);
      case BeginAdd(pid, caller, orgName, username, role) => ManagesMeansAdmin(x.s, caller, orgName);
      case BeginRemove(pid, caller, orgName, username) => ManagesMeansAdmin(x.s, caller, orgName);
      case BeginCreate(pid, caller, orgName, newId) =>
        if orgName !in x.s.a.orgs && !OrgIdTaken(x.s.a, newId) { NewOrgGivesNoAdmin(x.s, orgName, newId, orgId); }
      case Finish(pid, fails) =>
        if pid in x.pending {
          if Promotes(x.pending[pid], orgId) {
            CompleteGivesAdmin(x.s, x.pending[pid], orgId);
          } else {
            CompleteGivesNoAdmin(x.s, x.pending[pid], orgId);
          }
        }
    }
  }

  // An org without an admin at some moment stays so all the way exactly when no write that would give it one takes
  // effect on the way.
  lemma {:induction false} AdminlessThroughoutExactly(acts: seq<Action>, n: nat, orgId: string)
    requires n <= |acts| && Adminless(Reach(acts[..n]).s, orgId)
    ensures (forall m :: n <= m <= |acts| ==> Adminless(Reach(acts[..m]).s, orgId))
      <==> (forall i :: n <= i < |acts| ==> !GivesAdmin(Reach(acts[..i]), acts[i], orgId))
    decreases |acts|
  {
    hide Reach, Act, Adminless, SystemOk, GivesAdmin;
    if n < |acts| {
      var before := acts[..|acts| - 1];
      assert forall m :: 0 <= m <= |before| ==> before[..m] == acts[..m];
      assert acts[..|acts|] == acts;
      AdminlessThroughoutExactly(before, n, orgId);
      ReachNext(acts, |acts|);
      AlwaysOk(before);
      if Adminless(Reach(before).s, orgId) { AdminlessAct(Reach(before), acts[|acts| - 1], orgId); }
      assert acts[..|before|] == before;
    }
  }

  /** The write has been pending from the n-th to the i-th action. */
  ghost predicate PendingThroughout(acts: seq<Action>, n: nat, i: nat, pid: nat)
    requires n <= i <= |acts|
  {
    && pid in Reach(acts[..i]).pending
    && forall m :: n <= m <= i ==>
         pid in Reach(acts[..m]).pending && Reach(acts[..m]).pending[pid] == Reach(acts[..i]).pending[pid]
  }

  lemma {:induction false} PromotionWasPending(acts: seq<Action>, n: nat, i: nat, orgId: string, pid: nat)
    requires n <= i <= |acts| && pid in Promotions(Reach(acts[..i]), orgId)
    requires forall m :: n <= m <= i ==> Adminless(Reach(acts[..m]).s, orgId)
    ensures PendingThroughout(acts, n, i, pid)
    decreases i
  {
    hide Reach, Act, Adminless, SystemOk, Promotions;
    PromotionIsPending(Reach(acts[..i]), orgId, pid);
    if n < i {
      AlwaysOk(acts[..i - 1]);
      ReachNext(acts, i);
      assert Adminless(Reach(acts[..i - 1]).s, orgId);
      AdminlessAct(Reach(acts[..i - 1]), acts[i - 1], orgId);
      PromotionWasPending(acts, n, i - 1, orgId, pid);
    }
  }

  lemma PromotionIsPending(x: System, orgId: string, pid: nat)
    requires pid in Promotions(x, orgId)
    ensures pid in x.pending
  {
  }

  // An org that has no admin at some moment, and has one later, got the first of those by a write that was pending,
  // its check passed, at that moment already and all the time since.
  lemma AdminOnlyByPendingWrite(acts: seq<Action>, n: nat, orgId: string) returns (i: nat)
    requires n <= |acts| && Adminless(Reach(acts[..n]).s, orgId)
    requires exists m :: n <= m <= |acts| && !Adminless(Reach(acts[..m]).s, orgId)
    ensures n <= i < |acts| && forall m :: n <= m <= i ==> Adminless(Reach(acts[..m]).s, orgId)
    ensures GivesAdmin(Reach(acts[..i]), acts[i], orgId) && PendingThroughout(acts, n, i, acts[i].pid)
  {
    hide Reach, Act, Adminless, SystemOk, TakesEffect, PendingThroughout;
    i := n;
    while i < |acts| && Adminless(Reach(acts[..i + 1]).s, orgId)
      invariant n <= i <= |acts|
      invariant forall m :: n <= m <= i ==> Adminless(Reach(acts[..m]).s, orgId)
    {
      i := i + 1;
    }
    AlwaysOk(acts[..i]);
    ReachNext(acts, i + 1);
    AdminlessAct(Reach(acts[..i]), acts[i], orgId);
    PromotionWasPending(acts, n, i, orgId, acts[i].pid);
  }

  // ---------- how an org comes to be without an admin ----------

  /** The pending write removes the org's only admin. */
  ghost predicate RemovesLastAdmin(s: State, p: Pending, orgId: string) {
    && p.Removing? && p.orgId == orgId && p.username in s.a.userIds
    && IsAdmin(s, orgId, s.a.userIds[p.username])
    && forall u :: IsAdmin(s, orgId, u) ==> u == s.a.userIds[p.username]
  }

  /** The checks of a creation pass, and its org is there without its creator's row. */
  predicate HalfBegins(x: System, act: Action, orgId: string) {
    && act.BeginCreate? && act.orgId == orgId && act.pid !in x.pending
    && LoggedIn(x.s.a, act.caller) && act.orgName !in x.s.a.orgs && !OrgIdTaken(x.s.a, orgId)
  }

  /** The action leaves the org without an admin: a whole call that does, the first half of its creation, or a
      pending write that removes its only admin. */
  ghost predicate Deserts(x: System, act: Action, orgId: string) {
    || (act.Whole? && Orphans(x.s, act.e, orgId))
    || HalfBegins(x, act, orgId)
    || (act.Finish? && !act.fails && act.pid in x.pending && RemovesLastAdmin(x.s, x.pending[act.pid], orgId))
  }

  lemma CompleteDeserts(s: State, p: Pending, orgId: string)
    requires Consistent(s) && PendingOk(s, p) && !Adminless(s, orgId)
    ensures Adminless(Complete(s, p), orgId) <==> RemovesLastAdmin(s, p, orgId)
  {
    hide OrgIdTaken, UsersOk, OwnersOk;
    var s' := Complete(s, p);
    SameOrgs(s.a, s'.a);
    if RemovesLastAdmin(s, p, orgId) {
      forall u ensures !IsAdmin(s', orgId, u) { assert IsAdmin(s', orgId, u) ==> IsAdmin(s, orgId, u); }
    } else if OrgIdTaken(s.a, orgId) {
      var u :| IsAdmin(s, orgId, u)
        && !(p.Removing? && p.orgId == orgId && p.username in s.a.userIds && s.a.userIds[p.username] == u);
      assert IsAdmin(s', orgId, u);
    }
  }

  lemma NewOrgDeserts(s: State, orgName: string, newId: string, orgId: string)
    requires Consistent(s) && !Adminless(s, orgId) && orgName !in s.a.orgs && !OrgIdTaken(s.a, newId)
    ensures Adminless(s.(a := s.a.(orgs := s.a.orgs[orgName := Org(newId, orgName)])), orgId) <==> newId == orgId
  {
    hide UsersOk, OwnersOk, OrgIdTaken;
    NewOrgKeepsConsistent(s, orgName, newId);
    var s' := s.(a := s.a.(orgs := s.a.orgs[orgName := Org(newId, orgName)]));
    NoMembersYet(s, newId);
    if newId == orgId {
      forall u ensures !IsAdmin(s', orgId, u) {}
    } else if OrgIdTaken(s.a, orgId) {
      var u :| IsAdmin(s, orgId, u);
      assert IsAdmin(s', orgId, u);
    } else {
      NotTakenByAnother(s.a, orgName, newId, orgId);
    }
  }

  lemma NotTakenByAnother(a: Accounts, orgName: string, newId: string, orgId: string)
    requires !OrgIdTaken(a, orgId) && newId != orgId
    ensures !OrgIdTaken(a.(orgs := a.orgs[orgName := Org(newId, orgName)]), orgId)
  {
  }

  // One action leaves an org without an admin exactly when it deserts it, or the org had none and is given none.
  lemma DesertingAct(x: System, act: Action, orgId: string)
    requires SystemOk(x)
    ensures Adminless(Act(x, act).s, orgId) <==>
      Deserts(x, act, orgId) || (Adminless(x.s, orgId) && !GivesAdmin(x, act, orgId))
  {
    hide Consistent, OrgIdTaken, Step, Complete, CanManageMembers, IsAdmin, Adminless, TakesEffect, Orphans;
    hide RemovesLastAdmin;
    if Adminless(x.s, orgId) {
      AdminlessAct(x, act, orgId);
      AlreadyDeserted(x, act, orgId);
    } else {
      match act {
        case Whole(e) => OrphaningStep(x.s, e, orgId);
        case BeginCreate(pid, caller, orgName, newId) =>
          if orgName !in x.s.a.orgs && !OrgIdTaken(x.s.a, newId) { NewOrgDeserts(x.s, orgName, newId, orgId); }
        case Finish(pid, fails) =>
          if pid in x.pending { CompleteDeserts(x.s, x.pending[pid], orgId); }
        case _ =>
      }
    }
  }

  lemma AlreadyDeserted(x: System, act: Action, orgId: string)
    requires Adminless(x.s, orgId)
    ensures !Deserts(x, act, orgId)
  {
  }

  // At any moment of any run of overlapping calls an org exists without an admin exactly when some action deserted it
  // and no write that would give it one has taken effect since.
  lemma {:induction false} DesertedExactly(acts: seq<Action>, n: nat, orgId: string)
    requires n <= |acts|
    ensures Adminless(Reach(acts[..n]).s, orgId) <==> exists j :: 0 <= j < n && DesertedSince(acts, j, n, orgId)
    decreases n
  {
    hide Reach, Act, Adminless, SystemOk, Deserts, GivesAdmin;
    if n == 0 {
      assert acts[..0] == [];
      NobodyYet(orgId);
    } else {
      DesertedExactly(acts, n - 1, orgId);
      AlwaysOk(acts[..n - 1]);
      ReachNext(acts, n);
      DesertingAct(Reach(acts[..n - 1]), acts[n - 1], orgId);
      forall j | 0 <= j < n - 1
        ensures DesertedSince(acts, j, n, orgId) <==>
          DesertedSince(acts, j, n - 1, orgId) && !GivesAdmin(Reach(acts[..n - 1]), acts[n - 1], orgId)
      {
      }
      if Deserts(Reach(acts[..n - 1]), acts[n - 1], orgId) {
        assert DesertedSince(acts, n - 1, n, orgId);
      } else if Adminless(Reach(acts[..n]).s, orgId) {
        var j :| 0 <= j < n - 1 && DesertedSince(acts, j, n - 1, orgId);
        assert DesertedSince(acts, j, n, orgId);
      }
    }
  }

  ghost predicate DesertedSince(acts: seq<Action>, j: nat, n: nat, orgId: string)
    requires j < n <= |acts|
  {
    && Deserts(Reach(acts[..j]), acts[j], orgId)
    && forall i :: j < i < n ==> !GivesAdmin(Reach(acts[..i]), acts[i], orgId)
  }

  lemma NobodyYet(orgId: string)
    ensures !Adminless(Reach([]).s, orgId)
  {
  }

  // ---------- two runs ----------

  /** Ann and Bob register, Ann creates an org and is about to make Bob an admin when she removes herself. */
  const RACE: seq<Action> := [
    Whole(Register("u", "ann")), Whole(Register("v", "bob")), Whole(CreateOrg(Some("u"), "acme", "o", false)),
    BeginAdd(0, Some("u"), "acme", "bob", Admin),
    Whole(RemoveMember(Some("u"), "acme", "ann", NoFault)),
    Finish(0, false)]

  const BOTH: State := State(
    Accounts(map["u" := User("u", "ann"), "v" := User("v", "bob")], map["ann" := "u", "bob" := "v"], map[], map[]),
    map[])
  const FOUNDED: State := BOTH.(a := BOTH.a.(
    orgs := map["acme" := Org("o", "acme")], members := map[("o", "u") := Admin]))
  const DESERTED: State := FOUNDED.(a := FOUNDED.a.(members := map[]))

  lemma RaceAt(n: nat)
    requires n < |RACE|
    ensures Reach(RACE[..n + 1]) == Act(Reach(RACE[..n]), RACE[n])
  {
    hide Act;
    ReachNext(RACE, n + 1);
  }

  lemma RaceRegisters()
    ensures Reach(RACE[..2]) == System(BOTH, map[])
  {
    assert RACE[..0] == [];
    RaceAt(0);
    RaceAt(1);
  }

  lemma RaceFounds()
    ensures Reach(RACE[..3]) == System(FOUNDED, map[])
  {
    hide Reach;
    RaceRegisters();
    RaceAt(2);
    assert !OrgIdTaken(BOTH.a, "o");
  }

  lemma RaceDeserts()
    ensures Reach(RACE[..5]) == System(DESERTED, map[0 := Adding("o", "bob", Admin)])
  {
    hide Reach;
    RaceFounds();
    RaceAt(3);
    assert Manages(FOUNDED.a, Some("u"), "acme");
    assert Reach(RACE[..4]) == System(FOUNDED, map[0 := Adding("o", "bob", Admin)]);
    RaceAt(4);
    assert FOUNDED.a.members - {("o", "u")} == map[];
  }

  // An org without an admin can get one again when calls overlap: here by the write that was pending.
  lemma RaceRegainsAnAdmin()
    ensures Adminless(Reach(RACE[..5]).s, "o") && IsAdmin(Reach(RACE).s, "o", "v")
  {
    hide Reach;
    RaceDeserts();
    assert DESERTED.a.orgs["acme"].id == "o";
    RaceAt(5);
    assert RACE[..6] == RACE;
  }

  /** Two admins remove each other at once. */
  const DUEL: seq<Action> := [
    Whole(Register("u", "ann")), Whole(Register("v", "bob")), Whole(CreateOrg(Some("u"), "acme", "o", false)),
    Whole(AddMember(Some("u"), "acme", "bob", Admin, NoFault)),
    BeginRemove(0, Some("u"), "acme", "bob"), BeginRemove(1, Some("v"), "acme", "ann"),
    Finish(0, false), Finish(1, false)]

  const SHARED: State := FOUNDED.(a := FOUNDED.a.(members := map[("o", "u") := Admin, ("o", "v") := Admin]))

  lemma DuelAt(n: nat)
    requires n < |DUEL|
    ensures Reach(DUEL[..n + 1]) == Act(Reach(DUEL[..n]), DUEL[n])
  {
    hide Act;
    ReachNext(DUEL, n + 1);
  }

  lemma DuelShares()
    ensures Reach(DUEL[..4]) == System(SHARED, map[])
  {
    hide Reach;
    RaceFounds();
    assert DUEL[..3] == RACE[..3];
    DuelAt(3);
    assert CanManageMembers(FOUNDED.a, "u", "o");
  }

  lemma DuelBegins()
    ensures Reach(DUEL[..6]) == System(SHARED, map[0 := Removing("o", "bob"), 1 := Removing("o", "ann")])
  {
    hide Reach;
    DuelShares();
    DuelAt(4);
    DuelAt(5);
    assert Manages(SHARED.a, Some("u"), "acme") && Manages(SHARED.a, Some("v"), "acme");
  }

  // Neither call removes the only admin as it was checked, and together they leave the org without one.
  lemma DuelDeserts()
    ensures Adminless(Reach(DUEL).s, "o")
  {
    hide Reach;
    DuelBegins();
    DuelAt(6);
    DuelAt(7);
    assert DUEL[..8] == DUEL;
    assert SHARED.a.members - {("o", "v")} - {("o", "u")} == map[];
    assert SHARED.a.orgs["acme"].id == "o";
  }

  // ---------- delegation ----------

  /** The row came in with the i-th action and has been there since. */
  ghost predicate EnteredAndStayed(acts: seq<Action>, i: nat, n: nat, orgId: string, userId: string)
    requires i < n <= |acts|
  {
    && !IsMember(Reach(acts[..i]).s, orgId, userId)
    && forall m :: i < m <= n ==> IsMember(Reach(acts[..m]).s, orgId, userId)
  }

  /** The write that is pending before the n-th action was begun by the j-th, and has been pending since. */
  ghost predicate BegunAt(acts: seq<Action>, j: nat, n: nat, pid: nat)
    requires j < n <= |acts|
  {
    && pid !in Reach(acts[..j]).pending && pid in Reach(acts[..n]).pending
    && forall m :: j < m <= n ==>
         pid in Reach(acts[..m]).pending && Reach(acts[..m]).pending[pid] == Reach(acts[..n]).pending[pid]
  }

  /** The i-th action is the call that the j-th is, or makes the write that the j-th began. */
  ghost predicate WrittenBy(acts: seq<Action>, j: nat, i: nat)
    requires j <= i < |acts|
  {
    || (j == i && acts[i].Whole?)
    || (j < i && acts[i].Finish? && !acts[i].fails && BegunAt(acts, j, i, acts[i].pid))
  }

  predicate Creates(act: Action, orgId: string, userId: string) {
    || (act.Whole? && act.e.CreateOrg? && act.e.caller == Some(userId) && act.e.orgId == orgId)
    || (act.BeginCreate? && act.caller == Some(userId) && act.orgId == orgId)
  }

  /** The caller of an addition to the org. */
  function AdderTo(s: State, act: Action, orgId: string): Option<string> {
    if act.Whole? && act.e.AddMember? && act.e.orgName in s.a.orgs && s.a.orgs[act.e.orgName].id == orgId
    then act.e.caller
    else if act.BeginAdd? && act.orgName in s.a.orgs && s.a.orgs[act.orgName].id == orgId then act.caller
    else None
  }

  /** The call is the creation of the org by this very user, or an addition to this org by a caller who was an admin
      of it at that moment and whose own row traces back in the same way. */
  ghost predicate Warrants(acts: seq<Action>, j: nat, orgId: string, userId: string)
    requires j < |acts|
    decreases j, 1
  {
    var s := Reach(acts[..j]).s;
    var adder := AdderTo(s, acts[j], orgId);
    || Creates(acts[j], orgId, userId)
    || (adder.Some? && IsAdmin(s, orgId, adder.value) && Traced(acts, j, orgId, adder.value))
  }

  /** The row came in with some action, by which an earlier one made its write, or which was a whole call, and that
      call warrants it. */
  ghost predicate Traced(acts: seq<Action>, n: nat, orgId: string, userId: string)
    requires n <= |acts|
    decreases n, 0
  {
    exists i, j :: 0 <= j <= i < n
      && EnteredAndStayed(acts, i, n, orgId, userId) && WrittenBy(acts, j, i) && Warrants(acts, j, orgId, userId)
  }

  /** The action passes its checks and leaves this write to be made. */
  predicate Begins(x: System, act: Action, pid: nat, p: Pending) {
    match p
    case Adding(orgId, username, role) =>
      act.BeginAdd? && act.pid == pid && Manages(x.s.a, act.caller, act.orgName)
      && x.s.a.orgs[act.orgName].id == orgId && act.username == username && act.role == role
    case Removing(orgId, username) =>
      act.BeginRemove? && act.pid == pid && Manages(x.s.a, act.caller, act.orgName)
      && x.s.a.orgs[act.orgName].id == orgId && act.username == username
    case Founding(orgId, userId) =>
      act.BeginCreate? && act.pid == pid && act.orgId == orgId && act.caller == Some(userId)
  }

  lemma PendingByAct(x: System, act: Action, pid: nat)
    requires pid in Act(x, act).pending
    ensures if pid in x.pending then Act(x, act).pending[pid] == x.pending[pid]
            else Begins(x, act, pid, Act(x, act).pending[pid])
  {
    hide Step, Complete, OrgIdTaken, CanManageMembers;
  }

  lemma {:induction false} PendingWasBegun(acts: seq<Action>, n: nat, pid: nat) returns (j: nat)
    requires n <= |acts| && pid in Reach(acts[..n]).pending
    ensures j < n && BegunAt(acts, j, n, pid)
    ensures Begins(Reach(acts[..j]), acts[j], pid, Reach(acts[..n]).pending[pid])
    decreases n
  {
    hide Reach, Act, Begins;
    if n == 0 {
      assert acts[..0] == [];
      NothingYet();
    } else {
      ReachNext(acts, n);
      PendingByAct(Reach(acts[..n - 1]), acts[n - 1], pid);
      if pid in Reach(acts[..n - 1]).pending {
        j := PendingWasBegun(acts, n - 1, pid);
      } else {
        j := n - 1;
      }
    }
  }

  // What an action does to the rows: a row that was not there before was warranted by this very action, or was the
  // pending write that it makes.
  lemma RowsByAct(x: System, act: Action, orgId: string, userId: string)
    requires SystemOk(x) && !IsMember(x.s, orgId, userId) && IsMember(Act(x, act).s, orgId, userId)
    ensures act.Whole? || (act.Finish? && act.pid in x.pending)
    ensures act.Finish? ==> !act.fails
    ensures act.Whole? ==> act.e.CreateOrg? || act.e.AddMember?
    ensures act.Whole? && act.e.CreateOrg? ==> act.e.caller == Some(userId) && act.e.orgId == orgId
    ensures act.Whole? && act.e.AddMember? ==>
      && act.e.caller.Some? && IsAdmin(x.s, orgId, act.e.caller.value)
      && act.e.orgName in x.s.a.orgs && x.s.a.orgs[act.e.orgName].id == orgId
      && act.e.username in x.s.a.userIds && x.s.a.userIds[act.e.username] == userId
    ensures act.Finish? ==>
      match x.pending[act.pid]
      case Adding(o, username, _) => o == orgId && username in x.s.a.userIds && x.s.a.userIds[username] == userId
      case Founding(o, u) => o == orgId && u == userId
      case Removing(_, _) => false
  {
    hide Step, Consistent, OrgIdTaken, CanManageMembers;
    if act.Whole? {
      NewRow(x.s, act.e, orgId, userId);
      MembersChange(x.s, act.e);
    }
  }

  lemma StayedOneLonger(acts: seq<Action>, n: nat, orgId: string, userId: string)
    requires n < |acts| && Traced(acts, n, orgId, userId) && IsMember(Reach(acts[..n + 1]).s, orgId, userId)
    ensures Traced(acts, n + 1, orgId, userId)
  {
    hide Reach, IsMember, WrittenBy, Warrants;
    var i, j :| 0 <= j <= i < n
      && EnteredAndStayed(acts, i, n, orgId, userId) && WrittenBy(acts, j, i) && Warrants(acts, j, orgId, userId);
    assert EnteredAndStayed(acts, i, n + 1, orgId, userId);
  }

  lemma AdderPassed(x: System, act: Action, pid: nat, p: Pending)
    requires SystemOk(x) && Begins(x, act, pid, p) && p.Adding?
    ensures var adder := AdderTo(x.s, act, p.orgId); adder.Some? && IsAdmin(x.s, p.orgId, adder.value)
  {
    hide OrgIdTaken, Consistent;
    ManagesMeansAdmin(x.s, act.caller, act.orgName);
  }

  // Also when calls overlap, every membership row came in by a call to this very org that passed its checks, and
  // traces back to the org's creation through callers who were admins when their calls were checked.
  lemma {:induction false} EveryRowIsWarranted(acts: seq<Action>, n: nat, orgId: string, userId: string)
    requires n <= |acts| && IsMember(Reach(acts[..n]).s, orgId, userId)
    ensures Traced(acts, n, orgId, userId)
    decreases n, 0
  {
    hide Reach, Act, IsAdmin, SystemOk, Begins, BegunAt, AdderTo, Creates;
    if n == 0 {
      assert acts[..0] == [];
      NothingYet();
    } else {
      var i := n - 1;
      ReachNext(acts, n);
      AlwaysOk(acts[..i]);
      if IsMember(Reach(acts[..i]).s, orgId, userId) {
        EveryRowIsWarranted(acts, i, orgId, userId);
        StayedOneLonger(acts, i, orgId, userId);
      } else {
        RowsByAct(Reach(acts[..i]), acts[i], orgId, userId);
        var j := CallBehindRow(acts, i, orgId, userId);
        assert EnteredAndStayed(acts, i, n, orgId, userId);
      }
    }
  }

  // The call behind a row that comes in.
  lemma {:induction false} CallBehindRow(acts: seq<Action>, i: nat, orgId: string, userId: string) returns (j: nat)
    requires i < |acts| && SystemOk(Reach(acts[..i]))
    requires !IsMember(Reach(acts[..i]).s, orgId, userId)
    requires IsMember(Act(Reach(acts[..i]), acts[i]).s, orgId, userId)
    ensures j <= i && WrittenBy(acts, j, i) && Warrants(acts, j, orgId, userId)
    decreases i, 1
  {
    hide Reach, Act, IsMember, SystemOk, BegunAt, Traced;
    RowsByAct(Reach(acts[..i]), acts[i], orgId, userId);
    if acts[i].Whole? {
      j := i;
    } else {
      j := PendingWasBegun(acts, i, acts[i].pid);
    }
    AlwaysOk(acts[..j]);
    var p := if acts[i].Finish? then Some(Reach(acts[..i]).pending[acts[i].pid]) else None;
    if p.Some? && p.value.Adding? { AdderPassed(Reach(acts[..j]), acts[j], acts[i].pid, p.value); }
    var adder := AdderTo(Reach(acts[..j]).s, acts[j], orgId);
    if !Creates(acts[j], orgId, userId) {
      assert adder.Some? && IsAdmin(Reach(acts[..j]).s, orgId, adder.value);
      AdminRowIsMember(Reach(acts[..j]).s, orgId, adder.value);
      EveryRowIsWarranted(acts, j, orgId, adder.value);
    }
  }

  lemma AdminRowIsMember(s: State, orgId: string, userId: string)
    requires IsAdmin(s, orgId, userId)
    ensures IsMember(s, orgId, userId)
  {
  }
}
