/** The handlers that push, label and pull, over tables they change row by row. */
module Registry {
  import opened Model
  import opened Authz
  import opened Archive
  import opened Store
  import opened Resolve
  import opened Upload

  datatype LabelValue = LabelValue(moduleRef: Option<(string, string)>, name: string, commitId: string)

  /** The checks of one entry of a label request, and the row it then writes. */
  function CheckLabel(a: Accounts, db: Db, caller: string, v: LabelValue, now: Time, id: string): Result<Label> {
    if v.moduleRef.None? then Err(InvalidArgument)
    else if v.moduleRef.value !in db.modules then Err(NotFound)
    else
      var m := db.modules[v.moduleRef.value];
      if !CanAdmin(a, caller, m) then Err(PermissionDenied)
      else if (m.id, v.commitId) !in db.commits then Err(InvalidArgument)
      else Ok(Label(id, m.id, v.name, v.commitId, now, now))
  }

  // The checks of an entry, read off the tables: each refusal and the success, exactly. Labels are moved by the user
  // who owns the module, or by the admins of the org that does.
  lemma CheckLabelExact(a: Accounts, db: Db, caller: string, v: LabelValue, now: Time, id: string)
    ensures var r := CheckLabel(a, db, caller, v, now, id);
      var known := v.moduleRef.Some? && v.moduleRef.value in db.modules;
      var admin := known && Administrable(a, caller, db.modules[v.moduleRef.value]);
      && (r == Err(NotFound) <==> v.moduleRef.Some? && !known)
      && (r == Err(PermissionDenied) <==> known && !admin)
      && (r.Ok? <==> admin && (db.modules[v.moduleRef.value].id, v.commitId) in db.commits)
      && (r.Ok? ==> r.value == Label(id, db.modules[v.moduleRef.value].id, v.name, v.commitId, now, now))
      && (r.Err? ==> r.error in {InvalidArgument, NotFound, PermissionDenied})
  {
    hide Administrable, CanAdmin;
    if v.moduleRef.Some? && v.moduleRef.value in db.modules {
      RightsFromTables(a, caller, db.modules[v.moduleRef.value]);
    }
  }

  /** The writes of a label request, up to the first entry that is refused. */
  function LabelPlan(a: Accounts, db: Db, caller: string, values: seq<LabelValue>, i: nat, env: Env): (ws: seq<Write>)
    requires i <= |values|
    ensures |ws| <= |values| - i
    decreases |values| - i
  {
    if i == |values| then []
    else match CheckLabel(a, db, caller, values[i], env.now(i), env.uuid(i, 0))
      case Err(_) => []
      case Ok(l) => [UpsertLabel(l)] + LabelPlan(a, db, caller, values, i + 1, env)
  }

  lemma {:induction false} LabelPlanAt(a: Accounts, db: Db, caller: string, values: seq<LabelValue>, i: nat, env: Env,
                                       n: nat)
    requires i <= |values| && n < |LabelPlan(a, db, caller, values, i, env)|
    ensures i + n < |values|
    ensures var r := CheckLabel(a, db, caller, values[i + n], env.now(i + n), env.uuid(i + n, 0));
      r.Ok? && LabelPlan(a, db, caller, values, i, env)[n] == UpsertLabel(r.value)
    decreases n
  {
    if n > 0 {
      LabelPlanAt(a, db, caller, values, i + 1, env, n - 1);
    }
  }

  lemma {:induction false} UpsertsKeepRest(db: Db, ws: seq<Write>)
    requires forall n :: 0 <= n < |ws| ==> ws[n].UpsertLabel?
    ensures ApplyAll(db, ws) == db.(labels := ApplyAll(db, ws).labels)
  {
    if ws != [] {
      UpsertsKeepRest(db, ws[..|ws| - 1]);
    }
  }

  /** The clock, as the entries of a request read it, has not fallen behind the stored commits. */
  ghost predicate ClockAhead(db: Db, env: Env, n: nat) {
    forall k, i :: k in db.commits && 0 <= i < n ==> db.commits[k].createdAt <= env.now(i)
  }

  // However far a label request gets, and provided the clock has not fallen behind the commits, it leaves the
  // tables intact, and changes nothing but label rows.
  lemma LabelPrefixKeepsIntact(c: Codec, a: Accounts, db: Db, caller: string, values: seq<LabelValue>, env: Env,
                               done: seq<Write>)
    requires Intact(c, db) && done <= LabelPlan(a, db, caller, values, 0, env)
    requires ClockAhead(db, env, |values|)
    ensures Intact(c, ApplyAll(db, done)) && Evolves(c, db, ApplyAll(db, done))
    ensures ApplyAll(db, done) == db.(labels := ApplyAll(db, done).labels)
  {
    forall n | 0 <= n < |done|
      ensures Admissible(c, ApplyAll(db, done[..n]), done[n]) && done[n].UpsertLabel?
    {
      LabelPlanAt(a, db, caller, values, 0, env, n);
      forall n' | 0 <= n' < n ensures done[n'].UpsertLabel? {
        LabelPlanAt(a, db, caller, values, 0, env, n');
      }
      UpsertsKeepRest(db, done[..n]);
    }
    UpsertsKeepRest(db, done);
    AdmissibleKeepsIntact(c, db, done);
  }

  lemma LabelPlanStep(a: Accounts, db: Db, caller: string, values: seq<LabelValue>, i: nat, env: Env)
    requires i <= |values|
    ensures i == |values| ==> LabelPlan(a, db, caller, values, i, env) == []
    ensures i < |values| ==>
      var r := CheckLabel(a, db, caller, values[i], env.now(i), env.uuid(i, 0));
      LabelPlan(a, db, caller, values, i, env)
        == if r.Err? then [] else [UpsertLabel(r.value)] + LabelPlan(a, db, caller, values, i + 1, env)
  {
    hide CheckLabel;
  }

  lemma {:induction false} LastUpsertWins(db: Db, ws: seq<Write>, k: (string, string), n: nat)
    requires n < |ws| && forall i :: 0 <= i < |ws| ==> ws[i].UpsertLabel?
    requires k == (ws[n].l.moduleId, ws[n].l.name)
    requires forall i :: n < i < |ws| ==> k != (ws[i].l.moduleId, ws[i].l.name)
    ensures var db' := ApplyAll(db, ws);
      k in db'.labels && db'.labels[k].commitId == ws[n].l.commitId && db'.labels[k].updatedAt == ws[n].l.updatedAt
  {
    if n < |ws| - 1 {
      LastUpsertWins(db, ws[..|ws| - 1], k, n);
    }
  }

  lemma {:induction false} OtherUpsertsKeep(db: Db, ws: seq<Write>, k: (string, string))
    requires forall i :: 0 <= i < |ws| ==> ws[i].UpsertLabel? && k != (ws[i].l.moduleId, ws[i].l.name)
    ensures LabelAt(ApplyAll(db, ws), k) == LabelAt(db, k)
  {
    if ws != [] { OtherUpsertsKeep(db, ws[..|ws| - 1], k); }
  }

  lemma {:induction false} FullLabelPlan(a: Accounts, db: Db, caller: string, values: seq<LabelValue>, i: nat, env: Env)
    requires i <= |values|
    requires forall n :: i <= n < |values| ==> CheckLabel(a, db, caller, values[n], env.now(n), env.uuid(n, 0)).Ok?
    ensures |LabelPlan(a, db, caller, values, i, env)| == |values| - i
    decreases |values| - i
  {
    if i < |values| { FullLabelPlan(a, db, caller, values, i + 1, env); }
  }

  /** The module and the name of the label of an entry. */
  predicate IsFor(db: Db, v: LabelValue, k: (string, string)) {
    v.moduleRef.Some? && v.moduleRef.value in db.modules && k == (db.modules[v.moduleRef.value].id, v.name)
  }

  predicate LastFor(db: Db, values: seq<LabelValue>, n: nat, k: (string, string))
    requires n < |values|
  {
    IsFor(db, values[n], k) && forall i :: n < i < |values| ==> !IsFor(db, values[i], k)
  }

  // After a whole label request every label that it is for points to the commit of the last entry for it, stamped with
  // the time of that entry; all other labels keep their rows.
  lemma LastEntryWins(a: Accounts, db: Db, caller: string, values: seq<LabelValue>, env: Env, k: (string, string))
    requires forall n :: 0 <= n < |values| ==> CheckLabel(a, db, caller, values[n], env.now(n), env.uuid(n, 0)).Ok?
    ensures var db' := ApplyAll(db, LabelPlan(a, db, caller, values, 0, env));
      && (forall n :: 0 <= n < |values| && LastFor(db, values, n, k) ==>
            k in db'.labels && db'.labels[k].commitId == values[n].commitId && db'.labels[k].updatedAt == env.now(n))
      && ((forall n :: 0 <= n < |values| ==> !IsFor(db, values[n], k)) ==> LabelAt(db', k) == LabelAt(db, k))
  {
    var ws := LabelPlan(a, db, caller, values, 0, env);
    FullLabelPlan(a, db, caller, values, 0, env);
    hide ApplyAll, LabelPlan;
    forall n | 0 <= n < |values|
      ensures ws[n].UpsertLabel? && (IsFor(db, values[n], k) <==> k == (ws[n].l.moduleId, ws[n].l.name))
      ensures ws[n].l.commitId == values[n].commitId && ws[n].l.updatedAt == env.now(n)
    {
      LabelPlanAt(a, db, caller, values, 0, env, n);
    }
    forall n | 0 <= n < |values| && LastFor(db, values, n, k)
      ensures var db' := ApplyAll(db, ws);
        k in db'.labels && db'.labels[k].commitId == values[n].commitId && db'.labels[k].updatedAt == env.now(n)
    {
      LastUpsertWins(db, ws, k, n);
    }
    if forall n :: 0 <= n < |values| ==> !IsFor(db, values[n], k) { OtherUpsertsKeep(db, ws, k); }
  }

  lemma EvolvesReflexive(c: Codec, db: Db)
    ensures Evolves(c, db, db)
  {
  }

  lemma CheckIgnoresLabels(a: Accounts, db: Db, labels: map<(string, string), Label>, caller: string, v: LabelValue,
                           now: Time, id: string)
    ensures CheckLabel(a, db.(labels := labels), caller, v, now, id) == CheckLabel(a, db, caller, v, now, id)
  {
  }

  lemma OneMore(db: Db, done: seq<Write>, w: Write)
    ensures ApplyAll(db, done + [w]) == Apply(ApplyAll(db, done), w)
  {
    assert (done + [w])[..|done|] == done;
  }

  lemma NothingDone(db: Db)
    ensures ApplyAll(db, []) == db
  {
  }

  lemma DoneKeepsIntact(c: Codec, a: Accounts, db: Db, caller: string, contents: seq<Content>, env: Env,
                        done: seq<Write>)
    requires done <= Plan(c, a, db, caller, contents, 0, env)
    ensures Lawful(c) && Intact(c, db) ==> Intact(c, ApplyAll(db, done)) && Evolves(c, db, ApplyAll(db, done))
  {
    if Lawful(c) && Intact(c, db) {
      AnyPrefixKeepsIntact(c, a, db, caller, contents, env, done);
    }
  }

  lemma LabelsDoneKeepIntact(c: Codec, a: Accounts, db: Db, caller: string, values: seq<LabelValue>, env: Env,
                             done: seq<Write>)
    requires done <= LabelPlan(a, db, caller, values, 0, env)
    ensures Intact(c, db) && ClockAhead(db, env, |values|) ==>
      Intact(c, ApplyAll(db, done)) && Evolves(c, db, ApplyAll(db, done))
  {
    hide *;
    if Intact(c, db) && ClockAhead(db, env, |values|) {
      LabelPrefixKeepsIntact(c, a, db, caller, values, env, done);
    }
  }

  /** The last call a request made failed; or the call before it did, which looked up a commit, and the last call
      then met that commit's row: a failing lookup counts as "not found", so its row is inserted again. */
  ghost predicate Interrupted(commits: map<(string, string), Commit>, fails: nat -> bool, ops: nat, done: seq<Write>) {
    ops > 0
    && (fails(ops - 1)
        || (ops > 1 && fails(ops - 2) && done != [] && done[|done| - 1].PutBlob?
            && exists k :: k in commits && StorageKey(k.0, k.1) == done[|done| - 1].key))
  }

  lemma InterruptedLater(commits: map<(string, string), Commit>, fails: nat -> bool, ops: nat,
                         before: seq<Write>, part: seq<Write>)
    requires Interrupted(commits, fails, ops, part)
    ensures Interrupted(commits, fails, ops, before + part)
  {
    assert part != [] ==> (before + part)[|before + part| - 1] == part[|part| - 1];
  }

  lemma AllWritten(c: Codec, a: Accounts, db: Db, caller: string, content: Content, i: nat, env: Env)
    ensures AfterContent(c, a, db, caller, content, i, env)
      == ApplyAll(db, ContentPlan(c, a, db, caller, content, i, env))
  {
  }

  /** The module is there, with the archive, its commit, and every label that the content names on that commit. */
  ghost predicate ContentIsIn(c: Codec, db: Db, content: Content) {
    && content.moduleRef.Some? && content.moduleRef.value in db.modules && c.encode(content.files).Some?
    && var moduleId, data := db.modules[content.moduleRef.value].id, c.encode(content.files).value;
       && (moduleId, c.hash(data)) in db.commits && HoldsArchive(c, db, moduleId, data)
       && forall l :: NamesLabel(content, l) ==> PointsTo(db, (moduleId, l), c.hash(data))
  }

  lemma ContentMeans(c: Codec, a: Accounts, db: Db, caller: string, content: Content, i: nat, env: Env)
    requires Check(c, a, db.modules, caller, content).Ok?
    ensures ContentIsIn(c, AfterContent(c, a, db, caller, content, i, env), content)
  {
    CheckExact(c, a, db.modules, caller, content);
    var (m, data) := Check(c, a, db.modules, caller, content).value;
    var db' := AfterContent(c, a, db, caller, content, i, env);
    assert db' == ApplyAll(db, ContentWrites(c, db, m, data, caller, LabelNames(content), env.now(i), UuidsOf(env, i)));
    hide ApplyAll, ContentWrites, LabelNames, NamesLabel, Check, Acceptable, Writable;
    ContentEffect(c, db, m, data, caller, LabelNames(content), env.now(i), UuidsOf(env, i));
    forall l | NamesLabel(content, l) ensures PointsTo(db', (m.id, l), c.hash(data)) { LabelNamesExact(content, l); }
  }

  lemma LastCallFailed(commits: map<(string, string), Commit>, fails: nat -> bool, ops: nat, done: seq<Write>)
    requires ops > 0 && fails(ops - 1)
    ensures Interrupted(commits, fails, ops, done)
  {
  }

  /** The content is accepted from this caller: the module exists, the caller is the user who owns it or a member of the
      org that does, and the files are within bounds and make an archive within bounds. */
  predicate AcceptedFrom(c: Codec, a: Accounts, modules: map<(string, string), Module>, caller: string,
                         content: Content)
  {
    && content.moduleRef.Some? && content.moduleRef.value in modules
    && Writable(a, caller, modules[content.moduleRef.value])
    && Acceptable(content.files)
    && c.encode(content.files).Some? && |c.encode(content.files).value| <= MAX_UPLOAD_SIZE
  }

  /** Every label that a content names, and no later content for the same module, points to that content's commit. */
  ghost predicate LabelsMoved(db: Db, db': Db, contents: seq<Content>, ids: seq<string>)
    requires |ids| == |contents|
  {
    forall j, l :: 0 <= j < |contents| && LastToName(contents, j, l) ==>
      && contents[j].moduleRef.Some? && contents[j].moduleRef.value in db.modules
      && PointsTo(db', (db.modules[contents[j].moduleRef.value].id, l), ids[j])
  }

  /** Every label that an entry is for, and no later entry, points to that entry's commit. */
  ghost predicate EntriesMoved(db: Db, db': Db, values: seq<LabelValue>) {
    forall n, k :: 0 <= n < |values| && LastFor(db, values, n, k) ==> PointsTo(db', k, values[n].commitId)
  }

  lemma RequestMeans(c: Codec, a: Accounts, db: Db, caller: string, contents: seq<Content>, env: Env, ids: seq<string>)
    requires AllPass(c, a, db.modules, caller, contents) && |ids| == |contents|
    requires forall j :: 0 <= j < |contents| ==> ids[j] == c.hash(Check(c, a, db.modules, caller, contents[j]).value.1)
    ensures forall j :: 0 <= j < |contents| ==>
      && AcceptedFrom(c, a, db.modules, caller, contents[j])
      && ids[j] == c.hash(c.encode(contents[j].files).value)
    ensures Intact(c, db) ==> LabelsMoved(db, ApplyAll(db, Plan(c, a, db, caller, contents, 0, env)), contents, ids)
  {
    hide Check, Acceptable, Writable, ApplyAll, Plan, LastToName, PointsTo, ModulesOk, BlobOk;
    forall j | 0 <= j < |contents|
      ensures AcceptedFrom(c, a, db.modules, caller, contents[j])
      ensures ids[j] == c.hash(c.encode(contents[j].files).value)
    {
      CheckExact(c, a, db.modules, caller, contents[j]);
    }
    if Intact(c, db) {
      forall j, l | 0 <= j < |contents| && LastToName(contents, j, l)
        ensures PointsTo(ApplyAll(db, Plan(c, a, db, caller, contents, 0, env)),
                         (db.modules[contents[j].moduleRef.value].id, l), ids[j])
      {
        EveryLabelMoved(c, a, db, caller, contents, env, j, l);
      }
    }
  }

  /** The entry is accepted from this caller: the module exists, the caller is the user who owns it or an admin of the
      org that does, and the commit is one of the module's. */
  predicate EntryFrom(a: Accounts, db: Db, caller: string, v: LabelValue) {
    && v.moduleRef.Some? && v.moduleRef.value in db.modules
    && Administrable(a, caller, db.modules[v.moduleRef.value])
    && (db.modules[v.moduleRef.value].id, v.commitId) in db.commits
  }

  lemma LabelRequestMeans(a: Accounts, db: Db, caller: string, values: seq<LabelValue>, env: Env)
    requires forall n :: 0 <= n < |values| ==> CheckLabel(a, db, caller, values[n], env.now(n), env.uuid(n, 0)).Ok?
    ensures forall n :: 0 <= n < |values| ==> EntryFrom(a, db, caller, values[n])
    ensures EntriesMoved(db, ApplyAll(db, LabelPlan(a, db, caller, values, 0, env)), values)
  {
    hide CheckLabel, Administrable, ApplyAll, LabelPlan, LastFor;
    forall n | 0 <= n < |values| ensures EntryFrom(a, db, caller, values[n]) {
      CheckLabelExact(a, db, caller, values[n], env.now(n), env.uuid(n, 0));
    }
    forall n, k | 0 <= n < |values| && LastFor(db, values, n, k)
      ensures PointsTo(ApplyAll(db, LabelPlan(a, db, caller, values, 0, env)), k, values[n].commitId)
    {
      LastEntryWins(a, db, caller, values, env, k);
    }
  }

  class Server {
    const codec: Codec
    var accounts: Accounts
    var modules: map<(string, string), Module>
    var commits: map<(string, string), Commit>
    var labels: map<(string, string), Label>
    var blobs: map<string, Bytes>

    constructor (codec: Codec)
      ensures this.codec == codec && Tables() == EMPTY_DB
    {
      this.codec := codec;
      accounts := Accounts(map[], map[], map[], map[]);
      modules, commits, labels, blobs := map[], map[], map[], map[];
    }

    function Tables(): Db
      reads this
    {
      Db(modules, commits, labels, blobs)
    }

    // ---------- the single backend calls; each may fail and then changes nothing ----------

    method Put(key: string, data: Bytes, fails: bool) returns (ok: bool)
      modifies this`blobs
      ensures ok == !fails
      ensures Tables() == if ok then Apply(old(Tables()), PutBlob(key, data)) else old(Tables())
    {
      if !fails {
        blobs := blobs[key := data];
      }
      return !fails;
    }

    /** Fails also on a row whose primary key is taken. */
    method CreateCommit(r: Commit, fails: bool) returns (ok: bool)
      modifies this`commits
      ensures ok <==> !fails && (r.moduleId, r.id) !in old(commits)
      ensures Tables() == if ok then Apply(old(Tables()), InsertCommit(r)) else old(Tables())
    {
      if fails || (r.moduleId, r.id) in commits {
        return false;
      }
      commits := commits[(r.moduleId, r.id) := r];
      return true;
    }

    method Upsert(l: Label, fails: bool) returns (ok: bool)
      modifies this`labels
      ensures ok == !fails
      ensures Tables() == if ok then Apply(old(Tables()), UpsertLabel(l)) else old(Tables())
    {
      if !fails {
        var k := (l.moduleId, l.name);
        if k in labels {
          labels := labels[k := labels[k].(commitId := l.commitId, updatedAt := l.updatedAt)];
        } else {
          labels := labels[k := l];
        }
      }
      return !fails;
    }

    // ---------- pushing ----------

    /** Stores the blob, and the commit unless it is found. A lookup that fails counts as "not found", and then
        the insertion meets the primary key of a commit that is there. */
    method StoreCommit(caller: string, m: Module, data: Bytes, now: Time, fails: nat -> bool, ops: nat)
      returns (ok: bool, t: Time, ops': nat, ghost done: seq<Write>)
      modifies this`blobs, this`commits
      ensures var id := codec.hash(data);
        var ws := [PutBlob(StorageKey(m.id, id), data)] + CommitWrites(old(Tables()), m.id, id, caller, now);
        done <= ws && (ok ==> done == ws && t == StampTime(old(Tables()), (m.id, id), now))
      ensures Tables() == ApplyAll(old(Tables()), done)
      ensures ops < ops'
      ensures !ok ==> Interrupted(commits, fails, ops', done)
    {
      var commitId := codec.hash(data);
      var storageKey := StorageKey(m.id, commitId);
      done, t, ops' := [], now, ops + 1;
      var stored := Put(storageKey, data, fails(ops));
      if !stored {
        return false, t, ops', done;
      }
      OneMore(old(Tables()), [], PutBlob(storageKey, data));
      done := [PutBlob(storageKey, data)];
      ops' := ops' + 1;
      if !fails(ops' - 1) && (m.id, commitId) in commits {
        t := commits[(m.id, commitId)].createdAt;
      } else {
        var r := Commit(commitId, m.id, storageKey, caller, now);
        ops' := ops' + 1;
        var created := CreateCommit(r, fails(ops' - 1));
        if !created {
          var k := (m.id, commitId);
          assert k in commits ==> done[|done| - 1].key == StorageKey(k.0, k.1);
          return false, t, ops', done;
        }
        OneMore(old(Tables()), done, InsertCommit(r));
        done := done + [InsertCommit(r)];
      }
      return true, t, ops', done;
    }

    method MoveLabels(m: Module, commitId: string, names: seq<string>, t: Time, uuid: nat -> string,
                      fails: nat -> bool, ops: nat)
      returns (ok: bool, ops': nat, ghost done: seq<Write>)
      modifies this`labels
      ensures var ws := LabelWrites(names, m.id, commitId, t, uuid);
        done <= ws && (ok ==> done == ws)
      ensures Tables() == ApplyAll(old(Tables()), done)
      ensures ops <= ops' && (!ok ==> ops < ops' && fails(ops' - 1))
    {
      ghost var ws := LabelWrites(names, m.id, commitId, t, uuid);
      done, ops' := [], ops;
      for j := 0 to |names|
        invariant done == ws[..j]
        invariant Tables() == ApplyAll(old(Tables()), done)
        invariant ops <= ops'
      {
        ops' := ops' + 1;
        var moved := Upsert(Label(uuid(j), m.id, names[j], commitId, t, t), fails(ops' - 1));
        if !moved {
          return false, ops', done;
        }
        OneMore(old(Tables()), done, ws[j]);
        done := done + [ws[j]];
      }
      return true, ops', done;
    }

    /** Pushes one content that passes its checks. */
    method PushContent(caller: string, content: Content, i: nat, env: Env, ops: nat)
      returns (ok: bool, ops': nat, ghost done: seq<Write>)
      requires Check(codec, accounts, modules, caller, content).Ok?
      modifies this`blobs, this`commits, this`labels
      ensures var ws := ContentPlan(codec, accounts, old(Tables()), caller, content, i, env);
        done <= ws && (ok ==> done == ws)
      ensures Tables() == ApplyAll(old(Tables()), done)
      ensures ops <= ops' && (!ok ==> Interrupted(commits, env.fails, ops', done))
      ensures ok ==> ContentIsIn(codec, Tables(), content)
    {
      hide ApplyAll, Check, LabelWrites, CommitWrites, StampTime, LabelNames, Acceptable, ContentIsIn;
      ghost var db := Tables();
      var (m, data) := Check(codec, accounts, modules, caller, content).value;
      var t;
      ghost var labelled;
      ok, t, ops', done := StoreCommit(caller, m, data, env.now(i), env.fails, ops);
      if ok {
        ok, ops', labelled := MoveLabels(m, codec.hash(data), LabelNames(content), t, UuidsOf(env, i), env.fails, ops');
        ApplyAllConcat(db, done, labelled);
        done := done + labelled;
      }
      if ok {
        AllWritten(codec, accounts, db, caller, content, i, env);
        ContentMeans(codec, accounts, db, caller, content, i, env);
      }
    }

    /** Pushes the contents of a request one after the other, and counts the backend calls it makes. The writes it
        has made when it returns are a cut of the request's plan, and the whole plan when it succeeds; unless a
        call it makes fails, it succeeds exactly when every content passes its checks, and otherwise gives the
        reason of the first that does not. */
    method Upload(caller: Option<string>, contents: seq<Content>, env: Env)
      returns (r: Result<seq<string>>, ops: nat, ghost done: seq<Write>)
      modifies this`blobs, this`commits, this`labels
      ensures caller.None? ==> r == Err(Unauthenticated) && ops == 0 && done == []
      ensures caller.Some? ==>
        done <= Plan(codec, accounts, old(Tables()), caller.value, contents, 0, env)
      ensures Tables() == ApplyAll(old(Tables()), done)
      ensures r.Ok? ==>
        && done == Plan(codec, accounts, old(Tables()), caller.value, contents, 0, env)
        && caller.Some? && |r.value| == |contents|
        && forall j :: 0 <= j < |contents| ==>
             && AcceptedFrom(codec, accounts, modules, caller.value, contents[j])
             && r.value[j] == codec.hash(codec.encode(contents[j].files).value)
      ensures r.Ok? && Intact(codec, old(Tables())) ==> LabelsMoved(old(Tables()), Tables(), contents, r.value)
      ensures r.Err? && caller.Some? ==>
        (Interrupted(commits, env.fails, ops, done) && (r.error == NotFound || r.error == Internal))
        || (exists j :: 0 <= j < |contents|
              && Check(codec, accounts, modules, caller.value, contents[j]) == Err(r.error)
              && forall i :: 0 <= i < j ==> Check(codec, accounts, modules, caller.value, contents[i]).Ok?)
      ensures Lawful(codec) && Intact(codec, old(Tables())) ==>
        Intact(codec, Tables()) && Evolves(codec, old(Tables()), Tables())
    {
      hide ApplyAll, Plan, ContentPlan, AfterContent, Check, Intact, Lawful, Evolves, Interrupted;
      hide AcceptedFrom, LabelsMoved;
      ops, done := 0, [];
      NothingDone(Tables());
      if caller.None? {
        EvolvesReflexive(codec, Tables());
        return Err(Unauthenticated), ops, done;
      }
      ghost var db0 := Tables();
      ghost var plan := Plan(codec, accounts, db0, caller.value, contents, 0, env);
      var ids: seq<string> := [];
      for i := 0 to |contents|
        invariant Tables() == ApplyAll(db0, done) && modules == db0.modules
        invariant plan == done + Plan(codec, accounts, Tables(), caller.value, contents, i, env)
        invariant |ids| == i
        invariant forall j :: 0 <= j < i ==>
          var c := Check(codec, accounts, modules, caller.value, contents[j]);
          c.Ok? && ids[j] == codec.hash(c.value.1)
      {
        ghost var db1 := Tables();
        PlanEnd(codec, accounts, db1, caller.value, contents, i, env);
        if contents[i].moduleRef.Some? {
          ops := ops + 1;
          if env.fails(ops - 1) {
            LastCallFailed(commits, env.fails, ops, done);
            DoneKeepsIntact(codec, accounts, db0, caller.value, contents, env, done);
            return Err(NotFound), ops, done;
          }
        }
        var checked := Check(codec, accounts, modules, caller.value, contents[i]);
        if checked.Err? {
          DoneKeepsIntact(codec, accounts, db0, caller.value, contents, env, done);
          return Err(checked.error), ops, done;
        }
        PlanStep(codec, accounts, db1, caller.value, contents, i, env);
        ghost var before, part := done, [];
        var ok;
        ok, ops, part := PushContent(caller.value, contents[i], i, env, ops);
        ApplyAllConcat(db0, before, part);
        done := before + part;
        if !ok {
          InterruptedLater(commits, env.fails, ops, before, part);
          DoneKeepsIntact(codec, accounts, db0, caller.value, contents, env, done);
          return Err(Internal), ops, done;
        }
        AllWritten(codec, accounts, db1, caller.value, contents[i], i, env);
        assert Tables() == AfterContent(codec, accounts, db1, caller.value, contents[i], i, env);
        ids := ids + [codec.hash(checked.value.1)];
      }
      PlanEnd(codec, accounts, Tables(), caller.value, contents, |contents|, env);
      DoneKeepsIntact(codec, accounts, db0, caller.value, contents, env, done);
      RequestMeans(codec, accounts, db0, caller.value, contents, env, ids);
      return Ok(ids), ops, done;
    }

    // ---------- moving labels ----------

    /** Checks and moves the labels of a request one after the other. Each check is made before the write it
        guards, in the tables as they then are; the rows it reads are those from before the request. */
    method CreateOrUpdateLabels(caller: Option<string>, values: seq<LabelValue>, env: Env)
      returns (r: Result<seq<Label>>, ops: nat, ghost done: seq<Write>)
      modifies this`labels
      ensures caller.None? ==> r == Err(Unauthenticated) && ops == 0 && done == []
      ensures caller.Some? ==> done <= LabelPlan(accounts, old(Tables()), caller.value, values, 0, env)
      ensures Tables() == ApplyAll(old(Tables()), done)
      ensures r.Ok? ==> caller.Some? && |r.value| == |values| == |done| && forall i :: 0 <= i < |values| ==>
        && EntryFrom(accounts, old(Tables()), caller.value, values[i])
        && CheckLabel(accounts, old(Tables()), caller.value, values[i], env.now(i), env.uuid(i, 0)) == Ok(r.value[i])
      ensures r.Ok? ==> EntriesMoved(old(Tables()), Tables(), values)
      ensures r.Err? && caller.Some? ==>
        (ops > 0 && env.fails(ops - 1) && r.error != PermissionDenied)
        || (|done| < |values|
            && CheckLabel(accounts, old(Tables()), caller.value, values[|done|], env.now(|done|), env.uuid(|done|, 0))
                 == Err(r.error))
      ensures Intact(codec, old(Tables())) && ClockAhead(old(Tables()), env, |values|) ==>
        Intact(codec, Tables()) && Evolves(codec, old(Tables()), Tables())
    {
      hide ApplyAll, CheckLabel, LabelPlan, Intact, Evolves, ClockAhead, EntryFrom, EntriesMoved;
      ops, done := 0, [];
      NothingDone(Tables());
      if caller.None? {
        EvolvesReflexive(codec, Tables());
        return Err(Unauthenticated), ops, done;
      }
      ghost var db := Tables();
      ghost var plan := LabelPlan(accounts, db, caller.value, values, 0, env);
      var rows: seq<Label> := [];
      for i := 0 to |values|
        invariant Tables() == ApplyAll(db, done) && Tables() == db.(labels := labels)
        invariant plan == done + LabelPlan(accounts, db, caller.value, values, i, env)
        invariant |rows| == |done| == i
        invariant forall j :: 0 <= j < i ==>
          CheckLabel(accounts, db, caller.value, values[j], env.now(j), env.uuid(j, 0)) == Ok(rows[j])
      {
        var v := values[i];
        LabelPlanStep(accounts, db, caller.value, values, i, env);
        if v.moduleRef.Some? {
          ops := ops + 1;
          if env.fails(ops - 1) {
            LabelsDoneKeepIntact(codec, accounts, db, caller.value, values, env, done);
            return Err(NotFound), ops, done;
          }
        }
        CheckIgnoresLabels(accounts, db, labels, caller.value, v, env.now(i), env.uuid(i, 0));
        var checked := CheckLabel(accounts, Tables(), caller.value, v, env.now(i), env.uuid(i, 0));
        if checked.Err? {
          LabelsDoneKeepIntact(codec, accounts, db, caller.value, values, env, done);
          return Err(checked.error), ops, done;
        }
        ops := ops + 1;
        if env.fails(ops - 1) {
          LabelsDoneKeepIntact(codec, accounts, db, caller.value, values, env, done);
          return Err(InvalidArgument), ops, done;
        }
        ops := ops + 1;
        var moved := Upsert(checked.value, env.fails(ops - 1));
        if !moved {
          LabelsDoneKeepIntact(codec, accounts, db, caller.value, values, env, done);
          return Err(Internal), ops, done;
        }
        OneMore(db, done, UpsertLabel(checked.value));
        done := done + [UpsertLabel(checked.value)];
        rows := rows + [checked.value];
      }
      LabelPlanStep(accounts, db, caller.value, values, |values|, env);
      assert plan == done;
      LabelsDoneKeepIntact(codec, accounts, db, caller.value, values, env, done);
      LabelRequestMeans(accounts, db, caller.value, values, env);
      return Ok(rows), ops, done;
    }

    // ---------- pulling ----------

    /** Downloads the referenced contents in order; the first that fails ends the request. */
    method Download(caller: Option<string>, refs: seq<ResourceRef>, faults: nat -> ReadFaults)
      returns (r: Result<seq<(Commit, seq<File>)>>)
      ensures var userId := if caller.None? then "" else caller.value;
        if r.Ok? then
          |r.value| == |refs| && forall i :: 0 <= i < |refs| ==>
            DownloadOne(codec, accounts, Tables(), userId, refs[i], faults(i)) == Ok(r.value[i])
        else
          exists i :: 0 <= i < |refs|
            && DownloadOne(codec, accounts, Tables(), userId, refs[i], faults(i)) == Err(r.error)
            && forall j :: 0 <= j < i ==> DownloadOne(codec, accounts, Tables(), userId, refs[j], faults(j)).Ok?
    {
      var userId := if caller.None? then "" else caller.value;
      var contents: seq<(Commit, seq<File>)> := [];
      for i := 0 to |refs|
        invariant |contents| == i
        invariant forall j :: 0 <= j < i ==>
          DownloadOne(codec, accounts, Tables(), userId, refs[j], faults(j)) == Ok(contents[j])
      {
        var f := faults(i);
        var found := ResolveRef(Tables(), refs[i], f);
        if found.Unresolved? || found.commit.None? {
          return Err(NotFound);
        }
        var commit := found.commit.value;
        if !CanRead(accounts, userId, found.m) {
          return Err(NotFound);
        }
        if f.blobRead || commit.storageKey !in blobs {
          return Err(Internal);
        }
        var files := UnzipFiles(codec, blobs[commit.storageKey]);
        if files.None? {
          return Err(Internal);
        }
        contents := contents + [(commit, files.value)];
      }
      return Ok(contents);
    }
  }
}
