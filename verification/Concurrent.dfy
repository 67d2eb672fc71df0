/** Any number of pushes, label moves and pulls at once, interleaved backend call by backend call. */
module Concurrent {
  import opened Model
  import opened Authz
  import opened Archive
  import opened Store
  import opened Resolve
  import opened Upload
  import opened Registry

  /** What a push does next, with what it has read or made so far. */
  datatype PushPc =
    | Checking
    | Putting(m: Module, data: Bytes)
    | Looking(m: Module, data: Bytes)
    | Inserting(m: Module, data: Bytes, now: Time)
    | Moving(m: Module, data: Bytes, t: Time, j: nat)

  /** What a label request does next for its current entry. */
  datatype MovePc = Authorizing | Verifying(m: Module) | Writing(m: Module, now: Time)

  datatype Answer =
    | Unresolvable
    | NoCommits
    | Denied
    | LookupFailed
    | StoreFailed
    | DanglingLabel
    | DanglingCommit
    | BadArchive
    | Answered(m: Module, commit: Commit, files: seq<File>)

  /** What a pull reads next. */
  datatype PullPc =
    | ModuleRead
    | RefRead(m: Module, ref: string)
    | LabelRead(m: Module, name: string, isDefault: bool)
    | CommitRead(m: Module, name: string, commitId: string)
    | BlobRead(m: Module, commit: Commit)
    | Finished(answer: Answer)

  datatype Proc =
    | Push(caller: string, contents: seq<Content>, i: nat, pushPc: PushPc)
    | Move(mover: string, values: seq<LabelValue>, at: nat, movePc: MovePc)
    | Pull(userId: string, ref: ResourceRef, pullPc: PullPc, faulted: bool)
    | Stopped

  datatype System = System(db: Db, accounts: Accounts, clock: Time, procs: map<nat, Proc>)

  const INITIAL: System := System(EMPTY_DB, Accounts(map[], map[], map[], map[]), 0, map[])

  /** One backend call of one request, which may fail; or a change outside the requests: time passes, users and
      memberships change, a module is created, a request arrives. A request that is never stepped again has
      stopped for good. */
  datatype Event =
    | Step(pid: nat, fails: bool, uuid: string)
    | Tick(elapsed: nat)
    | ChangeAccounts(accounts: Accounts)
    | CreateModule(m: Module)
    | Arrive(pid: nat, proc: Proc)

  predicate Fresh(p: Proc) {
    match p
    case Push(_, _, i, pc) => i == 0 && pc == Checking
    case Move(_, _, at, pc) => at == 0 && pc == Authorizing
    case Pull(_, _, pc, faulted) => pc == ModuleRead && !faulted
    case Stopped => true
  }

  function PushStep(c: Codec, s: System, p: Proc, fails: bool, uuid: string): (Db, Proc)
    requires p.Push?
  {
    if p.pushPc.Checking? then
      if p.i >= |p.contents| || fails then (s.db, Stopped)
      else match Check(c, s.accounts, s.db.modules, p.caller, p.contents[p.i])
        case Err(_) => (s.db, Stopped)
        case Ok((m, data)) => (s.db, p.(pushPc := Putting(m, data)))
    else
      var m, data := p.pushPc.m, p.pushPc.data;
      var id := c.hash(data);
      var k := (m.id, id);
      match p.pushPc
      case Putting(_, _) =>
        if fails then (s.db, Stopped)
        else (Apply(s.db, PutBlob(StorageKey(m.id, id), data)), p.(pushPc := Looking(m, data)))
      case Looking(_, _) =>
        if !fails && k in s.db.commits then (s.db, p.(pushPc := Moving(m, data, s.db.commits[k].createdAt, 0)))
        else (s.db, p.(pushPc := Inserting(m, data, s.clock)))
      case Inserting(_, _, now) =>
        if fails || k in s.db.commits then (s.db, Stopped)
        else (Apply(s.db, InsertCommit(Commit(id, m.id, StorageKey(m.id, id), p.caller, now))),
              p.(pushPc := Moving(m, data, now, 0)))
      case Moving(_, _, t, j) =>
        if p.i >= |p.contents| then (s.db, Stopped)
        else
          var names := LabelNames(p.contents[p.i]);
          if j >= |names| then (s.db, p.(i := p.i + 1, pushPc := Checking))
          else if fails then (s.db, Stopped)
          else (Apply(s.db, UpsertLabel(Label(uuid, m.id, names[j], id, t, t))),
                p.(pushPc := Moving(m, data, t, j + 1)))
  }

  function MoveStep(s: System, p: Proc, fails: bool, uuid: string): (Db, Proc)
    requires p.Move?
  {
    if p.at >= |p.values| || fails then (s.db, Stopped)
    else
      var v := p.values[p.at];
      match p.movePc
      case Authorizing =>
        if v.moduleRef.None? || v.moduleRef.value !in s.db.modules then (s.db, Stopped)
        else
          var m := s.db.modules[v.moduleRef.value];
          if !CanAdmin(s.accounts, p.mover, m) then (s.db, Stopped) else (s.db, p.(movePc := Verifying(m)))
      case Verifying(m) =>
        if (m.id, v.commitId) !in s.db.commits then (s.db, Stopped) else (s.db, p.(movePc := Writing(m, s.clock)))
      case Writing(m, now) =>
        (Apply(s.db, UpsertLabel(Label(uuid, m.id, v.name, v.commitId, now, now))),
         p.(at := p.at + 1, movePc := Authorizing))
  }

  function PullNext(c: Codec, s: System, p: Proc, fails: bool): PullPc
    requires p.Pull?
  {
    match p.pullPc
    case ModuleRead =>
      if fails then Finished(LookupFailed)
      else if !p.ref.ByName? || (p.ref.owner, p.ref.moduleName) !in s.db.modules then Finished(Unresolvable)
      else
        var m, child := s.db.modules[(p.ref.owner, p.ref.moduleName)], p.ref.child;
        if child.LabelName? && child.name != "" then LabelRead(m, child.name, false)
        else if child.RefName? && child.ref != "" then RefRead(m, child.ref)
        else LabelRead(m, "main", true)
    case RefRead(m, ref) =>
      if !fails && (m.id, ref) in s.db.commits then BlobRead(m, s.db.commits[(m.id, ref)]) else LabelRead(m, ref, false)
    case LabelRead(m, name, isDefault) =>
      if fails then Finished(LookupFailed)
      else if (m.id, name) !in s.db.labels then Finished(if isDefault then NoCommits else Unresolvable)
      else CommitRead(m, name, s.db.labels[(m.id, name)].commitId)
    case CommitRead(m, _, commitId) =>
      if fails then Finished(LookupFailed)
      else if (m.id, commitId) !in s.db.commits then Finished(DanglingLabel)
      else BlobRead(m, s.db.commits[(m.id, commitId)])
    case BlobRead(m, commit) =>
      if !CanRead(s.accounts, p.userId, m) then Finished(Denied)
      else if fails then Finished(StoreFailed)
      else if commit.storageKey !in s.db.blobs then Finished(DanglingCommit)
      else
        var files := Unpack(c, s.db.blobs[commit.storageKey]);
        if files.None? then Finished(BadArchive) else Finished(Answered(m, commit, files.value))
    case Finished(_) => p.pullPc
  }

  function ProcStep(c: Codec, s: System, p: Proc, fails: bool, uuid: string): (Db, Proc) {
    match p
    case Push(_, _, _, _) => PushStep(c, s, p, fails, uuid)
    case Move(_, _, _, _) => MoveStep(s, p, fails, uuid)
    case Pull(_, _, _, _) => (s.db, p.(pullPc := PullNext(c, s, p, fails), faulted := p.faulted || fails))
    case Stopped => (s.db, p)
  }

  // A request stays of its kind until it stops, and a pull keeps its caller and its reference.
  lemma KindStays(c: Codec, s: System, p: Proc, fails: bool, uuid: string)
    ensures var p' := ProcStep(c, s, p, fails, uuid).1;
      && (p'.Pull? <==> p.Pull?)
      && (p.Pull? ==> p'.ref == p.ref && p'.userId == p.userId
                      && p'.pullPc == PullNext(c, s, p, fails) && p'.faulted == (p.faulted || fails))
  {
    hide Check, LabelNames, PullNext, CanAdmin, Apply, StorageKey;
  }

  /** An event that is not possible leaves the system as it is. */
  function Happen(c: Codec, s: System, e: Event): System {
    match e
    case Step(pid, fails, uuid) =>
      if pid !in s.procs then s
      else
        var (db, p) := ProcStep(c, s, s.procs[pid], fails, uuid);
        s.(db := db, procs := s.procs[pid := p])
    case Tick(elapsed) => s.(clock := s.clock + elapsed)
    case ChangeAccounts(a) => s.(accounts := a)
    case CreateModule(m) =>
      if (m.ownerName, m.name) in s.db.modules || (exists k :: k in s.db.modules && s.db.modules[k].id == m.id) then s
      else s.(db := s.db.(modules := s.db.modules[(m.ownerName, m.name) := m]))
    case Arrive(pid, p) =>
      if pid in s.procs || !Fresh(p) then s else s.(procs := s.procs[pid := p])
  }

  /** The system after a sequence of events. */
  function After(c: Codec, events: seq<Event>): System {
    if events == [] then INITIAL else Happen(c, After(c, events[..|events| - 1]), events[|events| - 1])
  }

  // ---------- who gets past the checks, read off the tables ----------

  // A push that checks a content goes on to store it exactly when the call does not fail, the caller is the user who
  // owns the module or a member of the org that does, and the files and their archive are within bounds.
  lemma PushChecksExactly(c: Codec, s: System, p: Proc, fails: bool, uuid: string)
    requires p.Push? && p.pushPc.Checking? && p.i < |p.contents|
    ensures var content, (db', p') := p.contents[p.i], PushStep(c, s, p, fails, uuid);
      && db' == s.db
      && (if !fails && AcceptedFrom(c, s.accounts, s.db.modules, p.caller, content)
          then p' == p.(pushPc := Putting(s.db.modules[content.moduleRef.value], c.encode(content.files).value))
          else p' == Stopped)
  {
    hide Check, Acceptable, Writable;
    CheckExact(c, s.accounts, s.db.modules, p.caller, p.contents[p.i]);
  }

  // A label request goes on to look for the commit exactly when the call does not fail and the caller is the user who
  // owns the module or an admin of the org that does.
  lemma MoveAuthorizesExactly(s: System, p: Proc, fails: bool, uuid: string)
    requires p.Move? && p.movePc.Authorizing? && p.at < |p.values|
    ensures var v, (db', p') := p.values[p.at], MoveStep(s, p, fails, uuid);
      && db' == s.db
      && (if !fails && v.moduleRef.Some? && v.moduleRef.value in s.db.modules
             && Administrable(s.accounts, p.mover, s.db.modules[v.moduleRef.value])
          then p' == p.(movePc := Verifying(s.db.modules[v.moduleRef.value]))
          else p' == Stopped)
  {
    hide CanAdmin, Administrable;
    var v := p.values[p.at];
    if v.moduleRef.Some? && v.moduleRef.value in s.db.modules {
      RightsFromTables(s.accounts, p.mover, s.db.modules[v.moduleRef.value]);
    }
  }

  // A pull that has found its commit is refused exactly when the module is private and the caller is neither the user
  // who owns it nor a member of the org that does.
  lemma PullDeniesExactly(c: Codec, s: System, p: Proc, fails: bool)
    requires p.Pull? && p.pullPc.BlobRead?
    ensures var m := p.pullPc.m;
      PullNext(c, s, p, fails) == Finished(Denied) <==> m.visibility == Private && !Writable(s.accounts, p.userId, m)
  {
    hide CanRead, Writable, Unpack;
    RightsFromTables(s.accounts, p.userId, p.pullPc.m);
  }

  // ---------- what holds in every reachable state ----------

  /** What a request has established by the time it is about to make its next call. */
  ghost predicate ProcOk(c: Codec, db: Db, clock: Time, p: Proc) {
    match p
    case Push(_, _, _, pc) =>
      (match pc
       case Checking => true
       case Putting(m, data) => BlobOk(c, StorageKey(m.id, c.hash(data)), data)
       case Looking(m, data) => StorageKey(m.id, c.hash(data)) in db.blobs
       case Inserting(m, data, now) => StorageKey(m.id, c.hash(data)) in db.blobs && now <= clock
       case Moving(m, data, t, _) =>
         (m.id, c.hash(data)) in db.commits && db.commits[(m.id, c.hash(data))].createdAt <= t)
    case Move(_, values, at, pc) =>
      pc.Writing? ==>
        (at < |values|
         && (pc.m.id, values[at].commitId) in db.commits
         && db.commits[(pc.m.id, values[at].commitId)].createdAt <= pc.now)
    case Pull(_, ref, pc, _) => PullOk(c, db, ref, pc)
    case Stopped => true
  }

  /** The module a pull works on is the one the reference names; what it has read is there, and stays there. */
  ghost predicate PullOk(c: Codec, db: Db, ref: ResourceRef, pc: PullPc) {
    match pc
    case ModuleRead => true
    case RefRead(m, _) => RefersTo(db, ref, m)
    case LabelRead(m, _, _) => RefersTo(db, ref, m)
    case CommitRead(m, _, commitId) => RefersTo(db, ref, m) && (m.id, commitId) in db.commits
    case BlobRead(m, commit) => RefersTo(db, ref, m) && Stored(db, m, commit)
    case Finished(answer) =>
      match answer
      case DanglingLabel => false
      case DanglingCommit => false
      case BadArchive => false
      case Answered(m, commit, files) =>
        && RefersTo(db, ref, m) && Stored(db, m, commit)
        && Acceptable(files) && c.encode(files).Some? && c.hash(c.encode(files).value) == commit.id
      case _ => true
  }

  ghost predicate RefersTo(db: Db, ref: ResourceRef, m: Module) {
    ref.ByName? && (ref.owner, ref.moduleName) in db.modules && db.modules[(ref.owner, ref.moduleName)] == m
  }

  ghost predicate Stored(db: Db, m: Module, commit: Commit) {
    (m.id, commit.id) in db.commits && db.commits[(m.id, commit.id)] == commit
  }

  ghost predicate NoCommitFromTheFuture(db: Db, clock: Time) {
    forall k :: k in db.commits ==> db.commits[k].createdAt <= clock
  }

  ghost predicate SystemOk(c: Codec, s: System) {
    && Intact(c, s.db)
    && NoCommitFromTheFuture(s.db, s.clock)
    && forall pid :: pid in s.procs ==> ProcOk(c, s.db, s.clock, s.procs[pid])
  }

  // What a request has established survives whatever the others do.
  lemma ProcOkSurvives(c: Codec, db: Db, clock: Time, db': Db, clock': Time, p: Proc)
    requires ProcOk(c, db, clock, p) && Evolves(c, db, db') && clock <= clock'
    ensures ProcOk(c, db', clock', p)
  {
    hide BlobOk, Acceptable;
  }

  lemma PushStepOk(c: Codec, s: System, p: Proc, fails: bool, uuid: string)
    requires Lawful(c) && p.Push? && Intact(c, s.db)
    requires NoCommitFromTheFuture(s.db, s.clock) && ProcOk(c, s.db, s.clock, p)
    ensures var (db', p') := PushStep(c, s, p, fails, uuid);
      && Intact(c, db') && Evolves(c, s.db, db') && NoCommitFromTheFuture(db', s.clock)
      && ProcOk(c, db', s.clock, p')
  {
    hide Intact, Evolves, BlobOk, Acceptable, LabelNames, StorageKey, Lawful;
    var (db', p') := PushStep(c, s, p, fails, uuid);
    EvolvesReflexive(c, s.db);
    if p.pushPc.Checking? {
      if p'.Push? { PutAdmissible(c, s.accounts, s.db, p.caller, p.contents[p.i]); }
    } else {
      var m, id := p.pushPc.m, c.hash(p.pushPc.data);
      HashIsDigest(c, p.pushPc.data);
      match p.pushPc
      case Putting(_, data) => PutKeepsIntact(c, s.db, StorageKey(m.id, id), data);
      case Looking(_, _) =>
      case Inserting(_, _, now) =>
        if p'.Push? { InsertKeepsIntact(c, s.db, Commit(id, m.id, StorageKey(m.id, id), p.caller, now)); }
      case Moving(_, _, t, j) =>
        if p'.Push? && p'.i == p.i {
          UpsertKeepsIntact(c, s.db, Label(uuid, m.id, LabelNames(p.contents[p.i])[j], id, t, t));
        }
    }
  }

  lemma HashIsDigest(c: Codec, data: Bytes)
    requires Lawful(c)
    ensures IsDigest(c.hash(data))
  {
  }

  lemma MoveStepOk(c: Codec, s: System, p: Proc, fails: bool, uuid: string)
    requires p.Move? && Intact(c, s.db) && NoCommitFromTheFuture(s.db, s.clock) && ProcOk(c, s.db, s.clock, p)
    ensures var (db', p') := MoveStep(s, p, fails, uuid);
      && Intact(c, db') && Evolves(c, s.db, db') && NoCommitFromTheFuture(db', s.clock)
      && ProcOk(c, db', s.clock, p')
  {
    hide Intact, Evolves;
    EvolvesReflexive(c, s.db);
    if p.at < |p.values| && !fails && p.movePc.Writing? {
      var v, m, now := p.values[p.at], p.movePc.m, p.movePc.now;
      UpsertKeepsIntact(c, s.db, Label(uuid, m.id, v.name, v.commitId, now, now));
    }
  }

  lemma PullStepOk(c: Codec, s: System, p: Proc, fails: bool)
    requires Lawful(c) && p.Pull? && Intact(c, s.db) && PullOk(c, s.db, p.ref, p.pullPc)
    ensures PullOk(c, s.db, p.ref, PullNext(c, s, p, fails))
  {
    hide Intact, Lawful, Acceptable, Unpack, CanRead;
    match p.pullPc
    case RefRead(m, ref) =>
      if (m.id, ref) in s.db.commits { var _ := CommitContent(c, s.db, (m.id, ref)); }
    case LabelRead(m, name, _) =>
      if (m.id, name) in s.db.labels { LabelTarget(c, s.db, (m.id, name)); }
    case CommitRead(m, _, id) => var _ := CommitContent(c, s.db, (m.id, id));
    case BlobRead(m, commit) => var _ := CommitContent(c, s.db, (m.id, commit.id));
    case _ =>
  }

  lemma ModuleCreationOk(c: Codec, s: System, m: Module)
    requires Intact(c, s.db)
    ensures var s' := Happen(c, s, CreateModule(m)); Intact(c, s'.db) && Evolves(c, s.db, s'.db)
  {
    hide BlobOk, ModulesOk;
    var db' := Happen(c, s, CreateModule(m)).db;
    if db' != s.db { NewModuleOk(s.db, m); }
    forall k | k in db'.commits ensures CommitOk(db', k) { assert CommitOk(s.db, k); }
    forall k | k in db'.labels ensures LabelOk(db', k) { assert LabelOk(s.db, k); }
  }

  lemma NewModuleOk(db: Db, m: Module)
    requires ModulesOk(db)
    requires (m.ownerName, m.name) !in db.modules && !exists k :: k in db.modules && db.modules[k].id == m.id
    ensures ModulesOk(db.(modules := db.modules[(m.ownerName, m.name) := m]))
  {
  }

  lemma EventOk(c: Codec, s: System, e: Event)
    requires Lawful(c) && SystemOk(c, s)
    ensures var s' := Happen(c, s, e);
      SystemOk(c, s') && Evolves(c, s.db, s'.db) && s.clock <= s'.clock
  {
    hide Intact, Evolves, ProcOk, Lawful, PushStep, MoveStep, PullNext;
    var s' := Happen(c, s, e);
    EvolvesReflexive(c, s.db);
    match e {
      case Step(pid, fails, uuid) =>
        if pid in s.procs { StepOk(c, s, pid, fails, uuid); }
      case Tick(_) =>
      case ChangeAccounts(_) =>
      case CreateModule(m) => ModuleCreationOk(c, s, m);
      case Arrive(pid, p) => FreshIsOk(c, s'.db, s'.clock, p);
    }
    forall pid | pid in s'.procs ensures ProcOk(c, s'.db, s'.clock, s'.procs[pid]) {
      if pid in s.procs && s'.procs[pid] == s.procs[pid] {
        ProcOkSurvives(c, s.db, s.clock, s'.db, s'.clock, s.procs[pid]);
      }
    }
  }

  lemma FreshIsOk(c: Codec, db: Db, clock: Time, p: Proc)
    ensures Fresh(p) ==> ProcOk(c, db, clock, p)
  {
  }

  lemma StepOk(c: Codec, s: System, pid: nat, fails: bool, uuid: string)
    requires Lawful(c) && SystemOk(c, s) && pid in s.procs
    ensures var (db', p') := ProcStep(c, s, s.procs[pid], fails, uuid);
      && Intact(c, db') && Evolves(c, s.db, db') && NoCommitFromTheFuture(db', s.clock)
      && ProcOk(c, db', s.clock, p')
  {
    hide Intact, Evolves, Lawful, PushStep, MoveStep, PullNext, PullOk;
    var p := s.procs[pid];
    assert ProcOk(c, s.db, s.clock, p);
    match p
    case Push(_, _, _, _) => PushStepOk(c, s, p, fails, uuid);
    case Move(_, _, _, _) => MoveStepOk(c, s, p, fails, uuid);
    case Pull(_, _, _, _) => PullStepOk(c, s, p, fails); EvolvesReflexive(c, s.db);
    case Stopped => EvolvesReflexive(c, s.db);
  }

  // In every reachable state, whatever the interleaving and whatever fails: the tables are intact, every
  // request can rely on what it has read, and no pull has run into a row that names something missing.
  lemma {:induction false} AlwaysOk(c: Codec, events: seq<Event>)
    requires Lawful(c)
    ensures SystemOk(c, After(c, events))
  {
    if events != [] {
      AlwaysOk(c, events[..|events| - 1]);
      EventOk(c, After(c, events[..|events| - 1]), events[|events| - 1]);
    }
  }
}
