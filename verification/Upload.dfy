/** The writes an upload plans, and what they amount to once they are all made. */
module Upload {
  import opened Model
  import opened Authz
  import opened Archive
  import opened Store
  import opened Resolve

  /** One module's part of an upload request. The module reference may be missing. */
  datatype Content = Content(moduleRef: Option<(string, string)>, files: seq<File>, labelRefs: seq<string>)

  /** What the outside supplies: which backend call of the request fails, counted from zero; the clock as each
      content reads it; and the fresh ID drawn for each label of each content. */
  datatype Env = Env(fails: nat -> bool, now: nat -> Time, uuid: (nat, nat) -> string)

  /** The checks of one content before its first write: its module and its archive, or the refusal. */
  function Check(c: Codec, a: Accounts, modules: map<(string, string), Module>, caller: string, content: Content)
    : Result<(Module, Bytes)>
  {
    if content.moduleRef.None? then Err(InvalidArgument)
    else if content.moduleRef.value !in modules then Err(NotFound)
    else
      var m := modules[content.moduleRef.value];
      if !CanWrite(a, caller, m) then Err(PermissionDenied)
      else if !Acceptable(content.files) then Err(InvalidArgument)
      else match c.encode(content.files)
        case None => Err(Internal)
        case Some(data) => if |data| > MAX_UPLOAD_SIZE then Err(InvalidArgument) else Ok((m, data))
  }

  /** The labels a content moves: "main" when it names none, and in place of every empty name. */
  function LabelNames(content: Content): seq<string> {
    if content.labelRefs == [] then ["main"]
    else
      var refs := content.labelRefs;
      seq(|refs|, i requires 0 <= i < |refs| => if refs[i] == "" then "main" else refs[i])
  }

  /** The request names the label for this content: by its name, or "main" by an empty name or by naming none. */
  predicate NamesLabel(content: Content, l: string) {
    if content.labelRefs == [] then l == "main"
    else
      exists i :: 0 <= i < |content.labelRefs|
        && l == if content.labelRefs[i] == "" then "main" else content.labelRefs[i]
  }

  lemma LabelNamesExact(content: Content, l: string)
    ensures l in LabelNames(content) <==> NamesLabel(content, l)
    ensures NamesLabel(content, l) ==> l != ""
  {
    var names := LabelNames(content);
    if content.labelRefs != [] {
      forall i | 0 <= i < |content.labelRefs|
        ensures names[i] == if content.labelRefs[i] == "" then "main" else content.labelRefs[i]
      {
      }
      if NamesLabel(content, l) {
        var i :| 0 <= i < |content.labelRefs|
          && l == if content.labelRefs[i] == "" then "main" else content.labelRefs[i];
        assert names[i] == l;
      }
    }
  }

  // The checks of a content, read off the tables: each refusal and the success, exactly.
  lemma CheckExact(c: Codec, a: Accounts, modules: map<(string, string), Module>, caller: string, content: Content)
    ensures var r := Check(c, a, modules, caller, content);
      var known := content.moduleRef.Some? && content.moduleRef.value in modules;
      var writes := known && Writable(a, caller, modules[content.moduleRef.value]);
      && (r == Err(NotFound) <==> content.moduleRef.Some? && !known)
      && (r == Err(PermissionDenied) <==> known && !writes)
      && (r == Err(Internal) <==> writes && Acceptable(content.files) && c.encode(content.files).None?)
      && (r.Ok? <==>
            && writes && Acceptable(content.files)
            && c.encode(content.files).Some? && |c.encode(content.files).value| <= MAX_UPLOAD_SIZE)
      && (r.Ok? ==> r.value == (modules[content.moduleRef.value], c.encode(content.files).value))
      && (r.Err? ==> r.error in {InvalidArgument, NotFound, PermissionDenied, Internal})
  {
    hide Acceptable, Writable, CanWrite;
    if content.moduleRef.Some? && content.moduleRef.value in modules {
      RightsFromTables(a, caller, modules[content.moduleRef.value]);
    }
  }

  function LabelWrites(names: seq<string>, moduleId: string, commitId: string, t: Time, uuid: nat -> string)
    : (ws: seq<Write>)
    ensures |ws| == |names|
  {
    seq(|names|, j requires 0 <= j < |names| =>
      UpsertLabel(Label(uuid(j), moduleId, names[j], commitId, t, t)))
  }

  /** The time an upload stamps: that of the commit it finds, or the clock. */
  function StampTime(db: Db, k: (string, string), now: Time): Time {
    if k in db.commits then db.commits[k].createdAt else now
  }

  function CommitWrites(db: Db, moduleId: string, commitId: string, caller: string, now: Time): seq<Write> {
    if (moduleId, commitId) in db.commits then []
    else [InsertCommit(Commit(commitId, moduleId, StorageKey(moduleId, commitId), caller, now))]
  }

  /** Blob, then commit unless it is stored, then labels. */
  function ContentWrites(c: Codec, db: Db, m: Module, data: Bytes, caller: string, names: seq<string>,
                         now: Time, uuid: nat -> string): seq<Write>
  {
    var id := c.hash(data);
    [PutBlob(StorageKey(m.id, id), data)]
    + CommitWrites(db, m.id, id, caller, now)
    + LabelWrites(names, m.id, id, StampTime(db, (m.id, id), now), uuid)
  }

  function UuidsOf(env: Env, i: nat): nat -> string {
    (j: nat) => env.uuid(i, j)
  }

  function ContentPlan(c: Codec, a: Accounts, db: Db, caller: string, content: Content, i: nat, env: Env): seq<Write> {
    match Check(c, a, db.modules, caller, content)
    case Err(_) => []
    case Ok((m, data)) => ContentWrites(c, db, m, data, caller, LabelNames(content), env.now(i), UuidsOf(env, i))
  }

  /** All the writes of the contents from the i-th on, up to the first content that is refused. */
  function Plan(c: Codec, a: Accounts, db: Db, caller: string, contents: seq<Content>, i: nat, env: Env): seq<Write>
    requires i <= |contents|
    decreases |contents| - i
  {
    if i == |contents| || Check(c, a, db.modules, caller, contents[i]).Err? then []
    else
      var ws := ContentPlan(c, a, db, caller, contents[i], i, env);
      ws + Plan(c, a, ApplyAll(db, ws), caller, contents, i + 1, env)
  }

  // ---------- what the writes of one content amount to ----------

  function LabelAt(db: Db, k: (string, string)): Option<Label> {
    if k in db.labels then Some(db.labels[k]) else None
  }

  ghost predicate OtherLabelsKept(db: Db, db': Db, moduleId: string, names: seq<string>) {
    forall k: (string, string) :: k.0 != moduleId || k.1 !in names ==>
      LabelAt(db', k) == LabelAt(db, k)
  }

  /** A row that was there is moved and stamped, and is otherwise the same; a new one has the ID drawn for one of the
      times its name was given, and the stamp for both of its times. */
  ghost predicate Labelled(db: Db, db': Db, names: seq<string>, n: nat, moduleId: string, commitId: string,
                           t: Time, uuid: nat -> string, l: string)
    requires n <= |names|
  {
    var k := (moduleId, l);
    && k in db'.labels
    && if k in db.labels then db'.labels[k] == db.labels[k].(commitId := commitId, updatedAt := t)
       else exists j :: 0 <= j < n && names[j] == l && db'.labels[k] == Label(uuid(j), moduleId, l, commitId, t, t)
  }

  lemma LabelledOnce(db: Db, db1: Db, names: seq<string>, n: nat, moduleId: string, commitId: string,
                     t: Time, uuid: nat -> string, l: string)
    requires n < |names| && (l == names[n] || l in names[..n])
    requires l in names[..n] ==> Labelled(db, db1, names, n, moduleId, commitId, t, uuid, l)
    requires l !in names[..n] ==> LabelAt(db1, (moduleId, l)) == LabelAt(db, (moduleId, l))
    ensures Labelled(db, Apply(db1, UpsertLabel(Label(uuid(n), moduleId, names[n], commitId, t, t))), names, n + 1,
                     moduleId, commitId, t, uuid, l)
  {
  }

  lemma {:induction false} LabelWritesEffect(db: Db, names: seq<string>, moduleId: string, commitId: string,
                                             t: Time, uuid: nat -> string, n: nat)
    requires n <= |names|
    ensures var db' := ApplyAll(db, LabelWrites(names, moduleId, commitId, t, uuid)[..n]);
      && db'.modules == db.modules && db'.commits == db.commits && db'.blobs == db.blobs
      && (forall l :: l in names[..n] ==> Labelled(db, db', names, n, moduleId, commitId, t, uuid, l))
      && OtherLabelsKept(db, db', moduleId, names[..n])
  {
    hide Labelled;
    var ws := LabelWrites(names, moduleId, commitId, t, uuid);
    if n > 0 {
      LabelWritesEffect(db, names, moduleId, commitId, t, uuid, n - 1);
      assert ws[..n][..n - 1] == ws[..n - 1];
      assert names[..n] == names[..n - 1] + [names[n - 1]];
      var db1 := ApplyAll(db, ws[..n - 1]);
      forall l | l in names[..n]
        ensures Labelled(db, ApplyAll(db, ws[..n]), names, n, moduleId, commitId, t, uuid, l)
      {
        LabelledOnce(db, db1, names, n - 1, moduleId, commitId, t, uuid, l);
      }
    }
  }

  /** The tables once the blob and the commit of a content are stored. */
  function WithCommit(c: Codec, db: Db, moduleId: string, data: Bytes, caller: string, now: Time): Db {
    var id := c.hash(data);
    var db1 := db.(blobs := db.blobs[StorageKey(moduleId, id) := data]);
    if (moduleId, id) in db.commits then db1
    else db1.(commits := db.commits[(moduleId, id) := Commit(id, moduleId, StorageKey(moduleId, id), caller, now)])
  }

  lemma BlobAndCommitEffect(c: Codec, db: Db, moduleId: string, data: Bytes, caller: string, now: Time)
    ensures ApplyAll(db, [PutBlob(StorageKey(moduleId, c.hash(data)), data)]
                         + CommitWrites(db, moduleId, c.hash(data), caller, now))
      == WithCommit(c, db, moduleId, data, caller, now)
  {
    var put := PutBlob(StorageKey(moduleId, c.hash(data)), data);
    var ins := CommitWrites(db, moduleId, c.hash(data), caller, now);
    assert ApplyAll(db, [put]) == Apply(ApplyAll(db, []), put);
    if ins == [] {
      assert [put] + ins == [put];
    } else {
      assert ([put] + ins)[..1] == [put];
    }
  }

  lemma ContentEffect(c: Codec, db: Db, m: Module, data: Bytes, caller: string, names: seq<string>,
                      now: Time, uuid: nat -> string)
    ensures var id := c.hash(data);
      var key := m.id + "/" + id;
      var db' := ApplyAll(db, ContentWrites(c, db, m, data, caller, names, now, uuid));
      && db'.modules == db.modules && db'.blobs == db.blobs[key := data]
      && db'.commits == (if (m.id, id) in db.commits then db.commits
                         else db.commits[(m.id, id) := Commit(id, m.id, key, caller, now)])
      && (forall l :: l in names ==>
            Labelled(db, db', names, |names|, m.id, id, db'.commits[(m.id, id)].createdAt, uuid, l))
      && OtherLabelsKept(db, db', m.id, names)
  {
    hide Labelled, OtherLabelsKept, ApplyAll, LabelWrites, CommitWrites, WithCommit, StorageKey, StampTime;
    var id := c.hash(data);
    var t := StampTime(db, (m.id, id), now);
    var stored := [PutBlob(StorageKey(m.id, id), data)] + CommitWrites(db, m.id, id, caller, now);
    var labels := LabelWrites(names, m.id, id, t, uuid);
    var db1 := WithCommit(c, db, m.id, data, caller, now);
    WithCommitMeans(c, db, m.id, data, caller, now);
    BlobAndCommitEffect(c, db, m.id, data, caller, now);
    ApplyAllConcat(db, stored, labels);
    LabelWritesEffect(db1, names, m.id, id, t, uuid, |names|);
    assert labels[..|names|] == labels && names[..|names|] == names;
    SameLabelsBefore(db, db1, ApplyAll(db1, labels), names, m.id, id, t, uuid);
  }

  lemma WithCommitMeans(c: Codec, db: Db, moduleId: string, data: Bytes, caller: string, now: Time)
    ensures var id := c.hash(data);
      var key, db1 := moduleId + "/" + id, WithCommit(c, db, moduleId, data, caller, now);
      && db1.modules == db.modules && db1.labels == db.labels && db1.blobs == db.blobs[key := data]
      && db1.commits == (if (moduleId, id) in db.commits then db.commits
                         else db.commits[(moduleId, id) := Commit(id, moduleId, key, caller, now)])
      && db1.commits[(moduleId, id)].createdAt == StampTime(db, (moduleId, id), now)
  {
  }

  lemma SameLabelsBefore(db: Db, db1: Db, db': Db, names: seq<string>, moduleId: string, commitId: string,
                         t: Time, uuid: nat -> string)
    requires db1.labels == db.labels
    ensures OtherLabelsKept(db1, db', moduleId, names) ==> OtherLabelsKept(db, db', moduleId, names)
    ensures forall l :: Labelled(db1, db', names, |names|, moduleId, commitId, t, uuid, l) ==>
      Labelled(db, db', names, |names|, moduleId, commitId, t, uuid, l)
  {
  }

  // ---------- last writer wins ----------

  predicate AllPass(c: Codec, a: Accounts, modules: map<(string, string), Module>, caller: string,
                    contents: seq<Content>)
  {
    forall j :: 0 <= j < |contents| ==> Check(c, a, modules, caller, contents[j]).Ok?
  }

  /** A content that passes and moves the label with this module ID and name. */
  predicate Moves(c: Codec, a: Accounts, modules: map<(string, string), Module>, caller: string, content: Content,
                  k: (string, string))
  {
    var r := Check(c, a, modules, caller, content);
    r.Ok? && r.value.0.id == k.0 && NamesLabel(content, k.1)
  }

  /** The tables once the i-th content is through. */
  function AfterContent(c: Codec, a: Accounts, db: Db, caller: string, content: Content, i: nat, env: Env): Db {
    ApplyAll(db, ContentPlan(c, a, db, caller, content, i, env))
  }

  lemma AfterContentEffect(c: Codec, a: Accounts, db: Db, caller: string, content: Content, i: nat, env: Env,
                           k: (string, string))
    requires Check(c, a, db.modules, caller, content).Ok?
    ensures var db1 := AfterContent(c, a, db, caller, content, i, env);
      && db1.modules == db.modules
      && (if Moves(c, a, db.modules, caller, content, k)
          then LabelAt(db1, k).Some?
            && LabelAt(db1, k).value.commitId == c.hash(Check(c, a, db.modules, caller, content).value.1)
          else LabelAt(db1, k) == LabelAt(db, k))
  {
    var (m, data) := Check(c, a, db.modules, caller, content).value;
    ContentEffect(c, db, m, data, caller, LabelNames(content), env.now(i), UuidsOf(env, i));
    LabelNamesExact(content, k.1);
  }

  // Running a plan is running its first content and then the plan of the others.
  lemma PlanStep(c: Codec, a: Accounts, db: Db, caller: string, contents: seq<Content>, i: nat, env: Env)
    requires i < |contents| && Check(c, a, db.modules, caller, contents[i]).Ok?
    ensures var db1 := AfterContent(c, a, db, caller, contents[i], i, env);
      && db1.modules == db.modules
      && Plan(c, a, db, caller, contents, i, env)
           == ContentPlan(c, a, db, caller, contents[i], i, env) + Plan(c, a, db1, caller, contents, i + 1, env)
      && ApplyAll(db, Plan(c, a, db, caller, contents, i, env))
           == ApplyAll(db1, Plan(c, a, db1, caller, contents, i + 1, env))
  {
    AfterContentEffect(c, a, db, caller, contents[i], i, env, ("", ""));
    var db1 := AfterContent(c, a, db, caller, contents[i], i, env);
    ApplyAllConcat(db, ContentPlan(c, a, db, caller, contents[i], i, env),
                   Plan(c, a, db1, caller, contents, i + 1, env));
  }

  lemma PlanEnd(c: Codec, a: Accounts, db: Db, caller: string, contents: seq<Content>, i: nat, env: Env)
    requires i <= |contents|
    ensures i == |contents| || Check(c, a, db.modules, caller, contents[i]).Err? ==>
      && Plan(c, a, db, caller, contents, i, env) == []
      && ApplyAll(db, Plan(c, a, db, caller, contents, i, env)) == db
  {
  }

  // A label that no content from the i-th on moves keeps its row.
  lemma {:induction false} UnmovedLabelStays(c: Codec, a: Accounts, db: Db, caller: string, contents: seq<Content>,
                                             i: nat, env: Env, k: (string, string))
    requires i <= |contents| && AllPass(c, a, db.modules, caller, contents)
    requires forall j :: i <= j < |contents| ==> !Moves(c, a, db.modules, caller, contents[j], k)
    ensures var db' := ApplyAll(db, Plan(c, a, db, caller, contents, i, env));
      db'.modules == db.modules && LabelAt(db', k) == LabelAt(db, k)
    decreases |contents| - i
  {
    hide ApplyAll, ContentPlan, AfterContent, Plan, Moves, Check;
    if i == |contents| {
      PlanEnd(c, a, db, caller, contents, i, env);
    } else {
      PlanStep(c, a, db, caller, contents, i, env);
      AfterContentEffect(c, a, db, caller, contents[i], i, env, k);
      UnmovedLabelStays(c, a, AfterContent(c, a, db, caller, contents[i], i, env), caller, contents, i + 1, env, k);
    }
  }

  // After a whole request, every label moved by it points to the digest of the last content that moved it.
  lemma {:induction false} LastWriterWins(c: Codec, a: Accounts, db: Db, caller: string, contents: seq<Content>,
                                          i: nat, env: Env, j: nat, k: (string, string))
    requires i <= j < |contents| && AllPass(c, a, db.modules, caller, contents)
    requires Moves(c, a, db.modules, caller, contents[j], k)
    requires forall j' :: j < j' < |contents| ==> !Moves(c, a, db.modules, caller, contents[j'], k)
    ensures var db' := ApplyAll(db, Plan(c, a, db, caller, contents, i, env));
      && db'.modules == db.modules
      && LabelAt(db', k).Some?
      && LabelAt(db', k).value.commitId == c.hash(Check(c, a, db.modules, caller, contents[j]).value.1)
    decreases |contents| - i
  {
    hide ApplyAll, ContentPlan, AfterContent, Plan, Moves, Check;
    PlanStep(c, a, db, caller, contents, i, env);
    AfterContentEffect(c, a, db, caller, contents[i], i, env, k);
    var db1 := AfterContent(c, a, db, caller, contents[i], i, env);
    if i == j {
      UnmovedLabelStays(c, a, db1, caller, contents, i + 1, env, k);
    } else {
      LastWriterWins(c, a, db1, caller, contents, i + 1, env, j, k);
    }
  }

  // ---------- integrity along the plan ----------

  /** Every write is admissible in the state that the writes before it lead to. */
  ghost predicate AllAdmissible(c: Codec, db: Db, ws: seq<Write>) {
    forall n :: 0 <= n < |ws| ==> Admissible(c, ApplyAll(db, ws[..n]), ws[n])
  }

  lemma {:induction false} AdmissibleKeepsIntact(c: Codec, db: Db, ws: seq<Write>)
    requires Intact(c, db) && AllAdmissible(c, db, ws)
    ensures Intact(c, ApplyAll(db, ws)) && Evolves(c, db, ApplyAll(db, ws))
  {
    if ws != [] {
      var n := |ws| - 1;
      assert forall k :: 0 <= k < n ==> ws[..n][..k] == ws[..k];
      AdmissibleKeepsIntact(c, db, ws[..n]);
      ApplyKeepsIntact(c, ApplyAll(db, ws[..n]), ws[n]);
    }
  }

  lemma AdmissibleConcat(c: Codec, db: Db, a: seq<Write>, b: seq<Write>)
    requires AllAdmissible(c, db, a) && AllAdmissible(c, ApplyAll(db, a), b)
    ensures AllAdmissible(c, db, a + b)
  {
    forall n | 0 <= n < |a + b| ensures Admissible(c, ApplyAll(db, (a + b)[..n]), (a + b)[n]) {
      if n < |a| {
        assert (a + b)[..n] == a[..n];
      } else {
        assert (a + b)[..n] == a + b[..n - |a|];
        ApplyAllConcat(db, a, b[..n - |a|]);
      }
    }
  }

  lemma PutAdmissible(c: Codec, a: Accounts, db: Db, caller: string, content: Content)
    requires Lawful(c) && Check(c, a, db.modules, caller, content).Ok?
    ensures var (m, data) := Check(c, a, db.modules, caller, content).value;
      BlobOk(c, StorageKey(m.id, c.hash(data)), data)
  {
    var (m, data) := Check(c, a, db.modules, caller, content).value;
    DigestEndsKey(m.id, c.hash(data));
  }

  lemma ContentAdmissible(c: Codec, a: Accounts, db: Db, caller: string, content: Content, i: nat, env: Env)
    requires Lawful(c) && Intact(c, db)
    ensures AllAdmissible(c, db, ContentPlan(c, a, db, caller, content, i, env))
  {
    if Check(c, a, db.modules, caller, content).Ok? {
      var (m, data) := Check(c, a, db.modules, caller, content).value;
      var names, now, uuid := LabelNames(content), env.now(i), UuidsOf(env, i);
      var id := c.hash(data);
      var put := PutBlob(StorageKey(m.id, id), data);
      var ins := CommitWrites(db, m.id, id, caller, now);
      var t := StampTime(db, (m.id, id), now);
      var labels := LabelWrites(names, m.id, id, t, uuid);
      PutAdmissible(c, a, db, caller, content);
      assert [put][..0] == [];
      assert AllAdmissible(c, db, [put]);
      var db1 := ApplyAll(db, [put]);
      assert db1 == Apply(ApplyAll(db, []), put);
      assert ins != [] ==> ins[..0] == [];
      assert AllAdmissible(c, db1, ins);
      AdmissibleConcat(c, db, [put], ins);
      ApplyAllConcat(db, [put], ins);
      var db2 := ApplyAll(db1, ins);
      forall n | 0 <= n < |labels| ensures Admissible(c, ApplyAll(db2, labels[..n]), labels[n]) {
        LabelWritesEffect(db2, names, m.id, id, t, uuid, n);
      }
      AdmissibleConcat(c, db, [put] + ins, labels);
    }
  }

  lemma {:induction false} PlanAdmissible(c: Codec, a: Accounts, db: Db, caller: string, contents: seq<Content>,
                                          i: nat, env: Env)
    requires Lawful(c) && Intact(c, db) && i <= |contents|
    ensures AllAdmissible(c, db, Plan(c, a, db, caller, contents, i, env))
    decreases |contents| - i
  {
    if i < |contents| && Check(c, a, db.modules, caller, contents[i]).Ok? {
      var ws := ContentPlan(c, a, db, caller, contents[i], i, env);
      ContentAdmissible(c, a, db, caller, contents[i], i, env);
      AdmissibleKeepsIntact(c, db, ws);
      PlanAdmissible(c, a, ApplyAll(db, ws), caller, contents, i + 1, env);
      AdmissibleConcat(c, db, ws, Plan(c, a, ApplyAll(db, ws), caller, contents, i + 1, env));
    }
  }

  // However far an upload gets, it leaves the tables intact, and everything stored before it in place.
  lemma AnyPrefixKeepsIntact(c: Codec, a: Accounts, db: Db, caller: string, contents: seq<Content>, env: Env,
                             done: seq<Write>)
    requires Lawful(c) && Intact(c, db)
    requires done <= Plan(c, a, db, caller, contents, 0, env)
    ensures Intact(c, ApplyAll(db, done)) && Evolves(c, db, ApplyAll(db, done))
  {
    var ws := Plan(c, a, db, caller, contents, 0, env);
    PlanAdmissible(c, a, db, caller, contents, 0, env);
    assert forall n :: 0 <= n < |done| ==> done[..n] == ws[..n] && done[n] == ws[n];
    AdmissibleKeepsIntact(c, db, done);
  }

  // ---------- pushing what is already stored ----------

  lemma StoredBlobHasTheDigest(c: Codec, a: Accounts, db: Db, caller: string, content: Content)
    requires Lawful(c) && Intact(c, db) && Check(c, a, db.modules, caller, content).Ok?
    requires var (m, data) := Check(c, a, db.modules, caller, content).value; (m.id, c.hash(data)) in db.commits
    ensures var (m, data) := Check(c, a, db.modules, caller, content).value;
      StorageKey(m.id, c.hash(data)) in db.blobs && c.hash(db.blobs[StorageKey(m.id, c.hash(data))]) == c.hash(data)
  {
    hide Lawful, Intact, Acceptable, Unpack, Check, IsArchive;
    var (m, data) := Check(c, a, db.modules, caller, content).value;
    var k := (m.id, c.hash(data));
    var _ := CommitContent(c, db, k);
    StoredKey(c, db, k);
  }

  lemma StoredKey(c: Codec, db: Db, k: (string, string))
    requires Intact(c, db) && k in db.commits
    ensures db.commits[k].storageKey == StorageKey(k.0, k.1)
  {
    hide BlobOk, LabelOk, ModulesOk;
    assert CommitOk(db, k);
  }

  lemma LabelIdentityKept(c: Codec, db: Db, db': Db, k: (string, string))
    requires Intact(c, db) && Intact(c, db') && Evolves(c, db, db') && k in db.labels
    ensures k in db'.labels
    ensures db'.labels[k] == db.labels[k].(commitId := db'.labels[k].commitId, updatedAt := db'.labels[k].updatedAt)
  {
    hide BlobOk, CommitOk, ModulesOk;
    assert LabelOk(db, k);
    assert LabelOk(db', k);
  }

  lemma RepushEffect(c: Codec, a: Accounts, db: Db, caller: string, content: Content, i: nat, env: Env)
    requires Check(c, a, db.modules, caller, content).Ok?
    requires var (m, data) := Check(c, a, db.modules, caller, content).value; (m.id, c.hash(data)) in db.commits
    ensures var (m, data) := Check(c, a, db.modules, caller, content).value;
      var db' := AfterContent(c, a, db, caller, content, i, env);
      && db'.modules == db.modules && db'.commits == db.commits
      && db'.blobs == db.blobs[StorageKey(m.id, c.hash(data)) := data]
      && OthersKept(db, db', m.id, content)
      && (forall l :: NamesLabel(content, l) && (m.id, l) in db'.labels ==>
            db'.labels[(m.id, l)].commitId == c.hash(data)
            && db'.labels[(m.id, l)].updatedAt == db.commits[(m.id, c.hash(data))].createdAt)
  {
    hide LabelNames, NamesLabel, ContentWrites, ApplyAll;
    var (m, data) := Check(c, a, db.modules, caller, content).value;
    ContentEffect(c, db, m, data, caller, LabelNames(content), env.now(i), UuidsOf(env, i));
    forall l ensures l in LabelNames(content) <==> NamesLabel(content, l) { LabelNamesExact(content, l); }
  }

  /** Every label but those that the content names in this module has the row it had. */
  ghost predicate OthersKept(db: Db, db': Db, moduleId: string, content: Content) {
    forall k: (string, string) :: k.0 != moduleId || !NamesLabel(content, k.1) ==> LabelAt(db', k) == LabelAt(db, k)
  }

  // Pushing a content whose commit is stored changes neither the modules nor the commits, and leaves the blobs
  // exactly as they are unless the pushed archive collides with the stored one: it only points the named labels
  // to the commit and stamps them with the time at which the commit was first stored, however late the push.
  lemma RepushMovesOnlyLabels(c: Codec, a: Accounts, db: Db, caller: string, content: Content, i: nat, env: Env)
    requires Lawful(c) && Intact(c, db) && Check(c, a, db.modules, caller, content).Ok?
    requires var (m, data) := Check(c, a, db.modules, caller, content).value; (m.id, c.hash(data)) in db.commits
    ensures var (m, data) := Check(c, a, db.modules, caller, content).value;
      var commit := db.commits[(m.id, c.hash(data))];
      var db' := AfterContent(c, a, db, caller, content, i, env);
      && db'.modules == db.modules && db'.commits == db.commits
      && StorageKey(m.id, c.hash(data)) in db.blobs
      && (db'.blobs == db.blobs <==> NoCollision(c, {db.blobs[StorageKey(m.id, c.hash(data))], data}))
      && OthersKept(db, db', m.id, content)
      && (forall l :: NamesLabel(content, l) && (m.id, l) in db.labels ==>
            (m.id, l) in db'.labels
            && db'.labels[(m.id, l)] == db.labels[(m.id, l)].(commitId := c.hash(data), updatedAt := commit.createdAt))
  {
    hide *;
    var (m, data) := Check(c, a, db.modules, caller, content).value;
    var db' := AfterContent(c, a, db, caller, content, i, env);
    RepushEffect(c, a, db, caller, content, i, env);
    StoredBlobHasTheDigest(c, a, db, caller, content);
    OverwriteIsSilent(c, db.blobs, StorageKey(m.id, c.hash(data)), data);
    AfterContentKeepsIntact(c, a, db, caller, content, i, env);
    forall l | NamesLabel(content, l) && (m.id, l) in db.labels
      ensures (m.id, l) in db'.labels
      ensures db'.labels[(m.id, l)]
        == db.labels[(m.id, l)].(commitId := c.hash(data), updatedAt := db.commits[(m.id, c.hash(data))].createdAt)
    {
      LabelIdentityKept(c, db, db', (m.id, l));
    }
  }

  /** The tables after a request with one content. */
  function Pushed(c: Codec, a: Accounts, db: Db, caller: string, content: Content, env: Env): Db {
    ApplyAll(db, Plan(c, a, db, caller, [content], 0, env))
  }

  lemma PushedIsOneContent(c: Codec, a: Accounts, db: Db, caller: string, content: Content, env: Env)
    requires Check(c, a, db.modules, caller, content).Ok?
    ensures Pushed(c, a, db, caller, content, env) == AfterContent(c, a, db, caller, content, 0, env)
    ensures Pushed(c, a, db, caller, content, env).modules == db.modules
  {
    hide ApplyAll, ContentPlan, AfterContent, Plan, Check;
    PlanStep(c, a, db, caller, [content], 0, env);
    PlanEnd(c, a, AfterContent(c, a, db, caller, content, 0, env), caller, [content], 1, env);
  }

  lemma PushedEffect(c: Codec, a: Accounts, db: Db, caller: string, content: Content, env: Env, m: Module, data: Bytes)
    requires Check(c, a, db.modules, caller, content) == Ok((m, data))
    ensures var db', k := Pushed(c, a, db, caller, content, env), (m.id, c.hash(data));
      && db'.modules == db.modules && k in db'.commits
      && db'.commits[k].createdAt == StampTime(db, k, env.now(0))
      && (forall k' :: k' != k ==>
            && (k' in db'.commits <==> k' in db.commits)
            && (k' in db.commits ==> db'.commits[k'] == db.commits[k']))
      && (forall l :: NamesLabel(content, l) ==>
            && (m.id, l) in db'.labels && db'.labels[(m.id, l)].commitId == k.1
            && db'.labels[(m.id, l)].updatedAt == db'.commits[k].createdAt)
  {
    hide LabelNames, NamesLabel, ContentWrites, ApplyAll, StorageKey, Check, Plan;
    PushedIsOneContent(c, a, db, caller, content, env);
    forall l ensures l in LabelNames(content) <==> NamesLabel(content, l) { LabelNamesExact(content, l); }
    ContentEffect(c, db, m, data, caller, LabelNames(content), env.now(0), UuidsOf(env, 0));
  }

  // Pushing a content turns the update time of a label it moves back exactly when its commit is stored and older
  // than that time, or is not stored and the clock is behind that time.
  lemma UpdateTimeExact(c: Codec, a: Accounts, db: Db, caller: string, content: Content, env: Env,
                        m: Module, data: Bytes, l: string)
    requires Check(c, a, db.modules, caller, content) == Ok((m, data))
    requires NamesLabel(content, l) && (m.id, l) in db.labels
    ensures var k, before := (m.id, c.hash(data)), db.labels[(m.id, l)].updatedAt;
      var db' := Pushed(c, a, db, caller, content, env);
      && (m.id, l) in db'.labels
      && (db'.labels[(m.id, l)].updatedAt < before <==>
            if k in db.commits then db.commits[k].createdAt < before else env.now(0) < before)
  {
    hide NamesLabel, Check, Pushed;
    PushedEffect(c, a, db, caller, content, env, m, data);
  }

  // Pushing one content, then another, then the first again, moves a label's update time forward and back.
  lemma UpdateTimeGoesBack(c: Codec, a: Accounts, db: Db, caller: string, first: Content, second: Content,
                           m: Module, data: Bytes, data': Bytes, l: string, env: Env, env': Env, env'': Env)
    requires Check(c, a, db.modules, caller, first) == Ok((m, data)) && NamesLabel(first, l)
    requires Check(c, a, db.modules, caller, second) == Ok((m, data')) && NamesLabel(second, l)
    requires c.hash(data) != c.hash(data')
    requires (m.id, c.hash(data)) !in db.commits && (m.id, c.hash(data')) !in db.commits
    requires env.now(0) < env'.now(0)
    ensures var db1 := Pushed(c, a, db, caller, first, env);
      var db2 := Pushed(c, a, db1, caller, second, env');
      var db3 := Pushed(c, a, db2, caller, first, env'');
      && (m.id, l) in db2.labels && db2.labels[(m.id, l)].updatedAt == env'.now(0)
      && (m.id, l) in db3.labels && db3.labels[(m.id, l)].updatedAt == env.now(0)
      && db3.labels[(m.id, l)].updatedAt < db2.labels[(m.id, l)].updatedAt
  {
    hide NamesLabel, Check, Pushed;
    var db1 := Pushed(c, a, db, caller, first, env);
    PushedEffect(c, a, db, caller, first, env, m, data);
    PushedEffect(c, a, db1, caller, second, env', m, data');
    PushedEffect(c, a, Pushed(c, a, db1, caller, second, env'), caller, first, env'', m, data);
  }

  lemma OverwriteIsSilent(c: Codec, blobs: map<string, Bytes>, key: string, data: Bytes)
    requires key in blobs && c.hash(blobs[key]) == c.hash(data)
    ensures blobs[key := data] == blobs <==> NoCollision(c, {blobs[key], data})
  {
    assert blobs[key := data][key] == data;
    if blobs[key] == data { assert blobs[key := data] == blobs; }
  }

  lemma AfterContentKeepsIntact(c: Codec, a: Accounts, db: Db, caller: string, content: Content, i: nat, env: Env)
    requires Lawful(c) && Intact(c, db)
    ensures var db' := AfterContent(c, a, db, caller, content, i, env); Intact(c, db') && Evolves(c, db, db')
  {
    hide Lawful, Intact, Evolves, AllAdmissible, ContentPlan;
    ContentAdmissible(c, a, db, caller, content, i, env);
    AdmissibleKeepsIntact(c, db, ContentPlan(c, a, db, caller, content, i, env));
  }

  // ---------- push, then pull ----------

  predicate Names(content: Content, moduleRef: (string, string), l: string) {
    content.moduleRef == Some(moduleRef) && NamesLabel(content, l)
  }

  // For a content that passes, naming a label of a module is moving the label of that module's ID.
  lemma NamesIsMoves(c: Codec, a: Accounts, db: Db, caller: string, content: Content, moduleRef: (string, string),
                     l: string)
    requires ModulesOk(db) && Check(c, a, db.modules, caller, content).Ok? && moduleRef in db.modules
    ensures Names(content, moduleRef, l) <==> Moves(c, a, db.modules, caller, content, (db.modules[moduleRef].id, l))
    ensures NamesLabel(content, l) ==> l != ""
  {
    LabelNamesExact(content, l);
  }

  /** The archives that a request pushes. */
  function Archives(c: Codec, a: Accounts, modules: map<(string, string), Module>, caller: string,
                    contents: seq<Content>)
    : set<Bytes>
  {
    set j | 0 <= j < |contents| && Check(c, a, modules, caller, contents[j]).Ok? ::
      Check(c, a, modules, caller, contents[j]).value.1
  }

  lemma AfterContentBlobs(c: Codec, a: Accounts, db: Db, caller: string, content: Content, i: nat, env: Env)
    requires Check(c, a, db.modules, caller, content).Ok?
    ensures var (m, data) := Check(c, a, db.modules, caller, content).value;
      AfterContent(c, a, db, caller, content, i, env).blobs == db.blobs[StorageKey(m.id, c.hash(data)) := data]
  {
    hide LabelNames, ContentWrites, ApplyAll;
    var (m, data) := Check(c, a, db.modules, caller, content).value;
    ContentEffect(c, db, m, data, caller, LabelNames(content), env.now(i), UuidsOf(env, i));
  }

  lemma SameKeySameDigest(c: Codec, moduleId: string, moduleId': string, data: Bytes, data': Bytes)
    requires Lawful(c) && StorageKey(moduleId, c.hash(data)) == StorageKey(moduleId', c.hash(data'))
    ensures c.hash(data) == c.hash(data')
  {
    DigestEndsKey(moduleId, c.hash(data));
    DigestEndsKey(moduleId', c.hash(data'));
  }

  /** The blob of an archive is stored under the key of a module. */
  predicate HoldsArchive(c: Codec, db: Db, moduleId: string, data: Bytes) {
    var key := StorageKey(moduleId, c.hash(data));
    key in db.blobs && db.blobs[key] == data
  }

  lemma {:induction false} ArchiveStays(c: Codec, a: Accounts, db: Db, caller: string, contents: seq<Content>,
                                        i: nat, env: Env, moduleId: string, data: Bytes)
    requires Lawful(c) && i <= |contents| && AllPass(c, a, db.modules, caller, contents)
    requires NoCollision(c, Archives(c, a, db.modules, caller, contents))
    requires data in Archives(c, a, db.modules, caller, contents) && HoldsArchive(c, db, moduleId, data)
    ensures HoldsArchive(c, ApplyAll(db, Plan(c, a, db, caller, contents, i, env)), moduleId, data)
    decreases |contents| - i
  {
    hide ApplyAll, ContentPlan, AfterContent, Plan, Check, Lawful, StorageKey;
    if i == |contents| {
      PlanEnd(c, a, db, caller, contents, i, env);
    } else {
      PlanStep(c, a, db, caller, contents, i, env);
      AfterContentBlobs(c, a, db, caller, contents[i], i, env);
      var (m, data') := Check(c, a, db.modules, caller, contents[i]).value;
      assert data' in Archives(c, a, db.modules, caller, contents);
      if StorageKey(m.id, c.hash(data')) == StorageKey(moduleId, c.hash(data)) {
        SameKeySameDigest(c, m.id, moduleId, data', data);
      }
      var db1 := AfterContent(c, a, db, caller, contents[i], i, env);
      ArchiveStays(c, a, db1, caller, contents, i + 1, env, moduleId, data);
    }
  }

  // After a whole request the blob under the key of every content is that content's archive, if none of the
  // archives of the request collide.
  lemma {:induction false} EveryArchiveIsStored(c: Codec, a: Accounts, db: Db, caller: string, contents: seq<Content>,
                                                i: nat, env: Env, j: nat)
    requires Lawful(c) && i <= j < |contents| && AllPass(c, a, db.modules, caller, contents)
    requires NoCollision(c, Archives(c, a, db.modules, caller, contents))
    ensures var (m, data) := Check(c, a, db.modules, caller, contents[j]).value;
      HoldsArchive(c, ApplyAll(db, Plan(c, a, db, caller, contents, i, env)), m.id, data)
    decreases |contents| - i
  {
    hide ApplyAll, ContentPlan, AfterContent, Plan, Check, Lawful, StorageKey, NoCollision;
    PlanStep(c, a, db, caller, contents, i, env);
    AfterContentBlobs(c, a, db, caller, contents[i], i, env);
    var db1 := AfterContent(c, a, db, caller, contents[i], i, env);
    if i == j {
      var (m, data) := Check(c, a, db.modules, caller, contents[j]).value;
      ArchiveStays(c, a, db1, caller, contents, i + 1, env, m.id, data);
    } else {
      EveryArchiveIsStored(c, a, db1, caller, contents, i + 1, env, j);
    }
  }

  // What a label pull returns, when the label points to the digest of the archive of a file list, and that archive
  // is stored under the digest.
  lemma PullLabel(c: Codec, a: Accounts, db: Db, caller: string, content: Content, l: string)
    requires Lawful(c) && Intact(c, db) && l != ""
    requires Check(c, a, db.modules, caller, content).Ok?
    requires var (m, data) := Check(c, a, db.modules, caller, content).value;
      && LabelAt(db, (m.id, l)).Some? && LabelAt(db, (m.id, l)).value.commitId == c.hash(data)
      && HoldsArchive(c, db, m.id, data)
    ensures var (owner, name) := content.moduleRef.value;
      var r := DownloadOne(c, a, db, caller, ByName(owner, name, LabelName(l)), NO_FAULTS);
      && r.Ok? && r.value.0.id == c.hash(Check(c, a, db.modules, caller, content).value.1) && r.value.1 == content.files
      && (l == "main" ==> DownloadOne(c, a, db, caller, ByName(owner, name, NoChild), NO_FAULTS) == r)
      && ((Check(c, a, db.modules, caller, content).value.0.id, l) !in db.commits ==>
            DownloadOne(c, a, db, caller, ByName(owner, name, RefName(l)), NO_FAULTS) == r)
  {
    hide Lawful, Intact, Acceptable, Unpack;
    var (m, data) := Check(c, a, db.modules, caller, content).value;
    LabelTarget(c, db, (m.id, l));
    CommitBytes(c, db, (m.id, c.hash(data)), content.files);
    var (owner, name) := content.moduleRef.value;
    assert db.modules[(owner, name)] == m;
    assert CanRead(a, caller, m);
    assert ResolveRef(db, ByName(owner, name, LabelName(l)), NO_FAULTS)
      == Resolved(m, Some(db.commits[(m.id, c.hash(data))]));
  }

  // After a whole request in which every content passes and no two archives collide, downloading a label returns
  // exactly the files, in order, of the last content that named it, to the caller who pushed. The default reference
  // is "main", and a "ref" that is no stored commit's ID is the label of that name. Nothing is assumed of what was
  // stored before.
  lemma PushThenPull(c: Codec, a: Accounts, db: Db, caller: string, contents: seq<Content>, env: Env,
                     j: nat, moduleRef: (string, string), l: string)
    requires Lawful(c) && Intact(c, db) && AllPass(c, a, db.modules, caller, contents)
    requires NoCollision(c, Archives(c, a, db.modules, caller, contents))
    requires j < |contents| && Names(contents[j], moduleRef, l)
    requires forall j' :: j < j' < |contents| ==> !Names(contents[j'], moduleRef, l)
    ensures var db' := ApplyAll(db, Plan(c, a, db, caller, contents, 0, env));
      var pulled := DownloadOne(c, a, db', caller, ByName(moduleRef.0, moduleRef.1, LabelName(l)), NO_FAULTS);
      && pulled.Ok?
      && pulled.value.0.id == c.hash(Check(c, a, db.modules, caller, contents[j]).value.1)
      && pulled.value.1 == contents[j].files
      && (l == "main" ==>
            DownloadOne(c, a, db', caller, ByName(moduleRef.0, moduleRef.1, NoChild), NO_FAULTS) == pulled)
      && moduleRef in db.modules
      && ((db.modules[moduleRef].id, l) !in db'.commits ==>
            DownloadOne(c, a, db', caller, ByName(moduleRef.0, moduleRef.1, RefName(l)), NO_FAULTS) == pulled)
  {
    var ws := Plan(c, a, db, caller, contents, 0, env);
    assert Check(c, a, db.modules, caller, contents[j]).Ok? && moduleRef in db.modules && ModulesOk(db);
    var k := (db.modules[moduleRef].id, l);
    assert k.0 == Check(c, a, db.modules, caller, contents[j]).value.0.id;
    assert contents[j].moduleRef == Some(moduleRef) && NamesLabel(contents[j], l);
    hide Lawful, NoCollision, HoldsArchive, Intact, ModulesOk, Names, Moves, Check, LabelAt;
    hide Plan, ApplyAll, DownloadOne;
    forall j' | j <= j' < |contents|
      ensures Moves(c, a, db.modules, caller, contents[j'], k) <==> Names(contents[j'], moduleRef, l)
    {
      NamesIsMoves(c, a, db, caller, contents[j'], moduleRef, l);
    }
    NamesIsMoves(c, a, db, caller, contents[j], moduleRef, l);
    LastWriterWins(c, a, db, caller, contents, 0, env, j, k);
    EveryArchiveIsStored(c, a, db, caller, contents, 0, env, j);
    AnyPrefixKeepsIntact(c, a, db, caller, contents, env, ws);
    PullLabel(c, a, ApplyAll(db, ws), caller, contents[j], l);
  }

  /** Of the contents that name this label of this module, the j-th is the last. */
  ghost predicate LastToName(contents: seq<Content>, j: nat, l: string)
    requires j < |contents|
  {
    NamesLabel(contents[j], l)
    && forall j' :: j < j' < |contents| ==>
         !(contents[j'].moduleRef == contents[j].moduleRef && NamesLabel(contents[j'], l))
  }

  // After a whole request every label that a content names, and no later content for the same module, points to the
  // digest of that content's archive.
  lemma EveryLabelMoved(c: Codec, a: Accounts, db: Db, caller: string, contents: seq<Content>, env: Env,
                        j: nat, l: string)
    requires ModulesOk(db) && AllPass(c, a, db.modules, caller, contents)
    requires j < |contents| && LastToName(contents, j, l)
    ensures contents[j].moduleRef.Some? && contents[j].moduleRef.value in db.modules
    ensures c.encode(contents[j].files).Some?
    ensures var k := (db.modules[contents[j].moduleRef.value].id, l);
      PointsTo(ApplyAll(db, Plan(c, a, db, caller, contents, 0, env)), k, c.hash(c.encode(contents[j].files).value))
  {
    CheckExact(c, a, db.modules, caller, contents[j]);
    assert Check(c, a, db.modules, caller, contents[j]).Ok?;
    var moduleRef := contents[j].moduleRef.value;
    var k := (db.modules[moduleRef].id, l);
    hide ModulesOk, NamesLabel, Moves, Check, Plan, ApplyAll, Writable, Acceptable;
    forall j' | j <= j' < |contents|
      ensures Moves(c, a, db.modules, caller, contents[j'], k) <==> Names(contents[j'], moduleRef, l)
    {
      NamesIsMoves(c, a, db, caller, contents[j'], moduleRef, l);
    }
    LastWriterWins(c, a, db, caller, contents, 0, env, j, k);
  }

  // ---------- where an upload stops, and what it leaves alone ----------

  lemma PlanOfPrefix(c: Codec, a: Accounts, db: Db, caller: string, contents: seq<Content>, i: nat, env: Env, stop: nat)
    requires i < stop <= |contents| && Check(c, a, db.modules, caller, contents[i]).Ok?
    ensures var ws := ContentPlan(c, a, db, caller, contents[i], i, env);
      var db1 := AfterContent(c, a, db, caller, contents[i], i, env);
      && Plan(c, a, db, caller, contents[..stop], i, env) == ws + Plan(c, a, db1, caller, contents[..stop], i + 1, env)
      && ApplyAll(db, Plan(c, a, db, caller, contents[..stop], i, env))
           == ApplyAll(db1, Plan(c, a, db1, caller, contents[..stop], i + 1, env))
  {
    assert contents[..stop][i] == contents[i];
    PlanStep(c, a, db, caller, contents[..stop], i, env);
  }

  /** All the writes of the contents from i up to stop, and then a prefix of the writes of the content there. */
  ghost predicate StopsAt(c: Codec, a: Accounts, db: Db, caller: string, contents: seq<Content>, i: nat, env: Env,
                          done: seq<Write>, stop: nat, part: seq<Write>)
  {
    && i <= stop <= |contents|
    && done == Plan(c, a, db, caller, contents[..stop], i, env) + part
    && (part == [] ||
        (stop < |contents|
         && part <= ContentPlan(c, a, ApplyAll(db, Plan(c, a, db, caller, contents[..stop], i, env)), caller,
                                contents[stop], stop, env)))
  }

  lemma StopsLater(c: Codec, a: Accounts, db: Db, caller: string, contents: seq<Content>, i: nat, env: Env,
                   done: seq<Write>, stop: nat, part: seq<Write>)
    requires i < |contents| && Check(c, a, db.modules, caller, contents[i]).Ok?
    requires var db1 := AfterContent(c, a, db, caller, contents[i], i, env);
      StopsAt(c, a, db1, caller, contents, i + 1, env, done, stop, part)
    ensures StopsAt(c, a, db, caller, contents, i, env,
                    ContentPlan(c, a, db, caller, contents[i], i, env) + done, stop, part)
  {
    hide ApplyAll, ContentPlan, AfterContent, Plan, Check;
    PlanOfPrefix(c, a, db, caller, contents, i, env, stop);
  }

  lemma CutConcat<T>(a: seq<T>, b: seq<T>, done: seq<T>)
    requires done <= a + b
    ensures if |done| < |a| then done <= a else done == a + done[|a|..] && done[|a|..] <= b
  {
  }

  lemma StopsHere(c: Codec, a: Accounts, db: Db, caller: string, contents: seq<Content>, i: nat, env: Env,
                  part: seq<Write>)
    requires i <= |contents|
    requires part == [] || (i < |contents| && part <= ContentPlan(c, a, db, caller, contents[i], i, env))
    ensures StopsAt(c, a, db, caller, contents, i, env, part, i, part)
  {
    PlanEnd(c, a, db, caller, contents[..i], i, env);
  }

  // A request that stops part way has made all the writes of the contents before one content, and a prefix
  // of that content's writes: so is any cut of a plan.
  lemma {:induction false} PrefixStopsInOneContent(c: Codec, a: Accounts, db: Db, caller: string,
                                                   contents: seq<Content>, i: nat, env: Env, done: seq<Write>)
    returns (stop: nat, part: seq<Write>)
    requires i <= |contents| && done <= Plan(c, a, db, caller, contents, i, env)
    ensures StopsAt(c, a, db, caller, contents, i, env, done, stop, part)
    decreases |contents| - i
  {
    hide *;
    PlanEnd(c, a, db, caller, contents, i, env);
    if done == [] {
      StopsHere(c, a, db, caller, contents, i, env, []);
      return i, [];
    }
    PlanStep(c, a, db, caller, contents, i, env);
    var ws := ContentPlan(c, a, db, caller, contents[i], i, env);
    var db1 := AfterContent(c, a, db, caller, contents[i], i, env);
    CutConcat(ws, Plan(c, a, db1, caller, contents, i + 1, env), done);
    if |done| < |ws| {
      StopsHere(c, a, db, caller, contents, i, env, done);
      stop, part := i, done;
    } else {
      stop, part := PrefixStopsInOneContent(c, a, db1, caller, contents, i + 1, env, done[|ws|..]);
      StopsLater(c, a, db, caller, contents, i, env, done[|ws|..], stop, part);
    }
  }

  /** The module a write belongs to. The key of a blob ends in a slash and a digest. */
  function Target(w: Write): string {
    match w
    case PutBlob(key, _) => if |key| > 64 then key[..|key| - 65] else key
    case InsertCommit(r) => r.moduleId
    case UpsertLabel(l) => l.moduleId
  }

  /** The IDs of the modules that the contents from the i-th on name, as far as they pass the checks. */
  function NamedModules(c: Codec, a: Accounts, modules: map<(string, string), Module>, caller: string,
                        contents: seq<Content>, i: nat): set<string>
  {
    set j | i <= j < |contents| && Check(c, a, modules, caller, contents[j]).Ok? ::
      Check(c, a, modules, caller, contents[j]).value.0.id
  }

  lemma NamedModulesStep(c: Codec, a: Accounts, modules: map<(string, string), Module>, caller: string,
                         contents: seq<Content>, i: nat)
    requires i < |contents| && Check(c, a, modules, caller, contents[i]).Ok?
    ensures NamedModules(c, a, modules, caller, contents, i)
      == {Check(c, a, modules, caller, contents[i]).value.0.id} + NamedModules(c, a, modules, caller, contents, i + 1)
  {
    var first := Check(c, a, modules, caller, contents[i]).value.0.id;
    var all := NamedModules(c, a, modules, caller, contents, i);
    forall x | x in all ensures x in {first} + NamedModules(c, a, modules, caller, contents, i + 1) {
      var j :| i <= j < |contents| && Check(c, a, modules, caller, contents[j]).Ok?
        && x == Check(c, a, modules, caller, contents[j]).value.0.id;
    }
  }

  lemma ContentTargetsItsModule(c: Codec, a: Accounts, db: Db, caller: string, content: Content, i: nat, env: Env,
                                n: nat)
    requires Lawful(c) && n < |ContentPlan(c, a, db, caller, content, i, env)|
    ensures Check(c, a, db.modules, caller, content).Ok?
    ensures Target(ContentPlan(c, a, db, caller, content, i, env)[n])
      == Check(c, a, db.modules, caller, content).value.0.id
  {
    var (m, data) := Check(c, a, db.modules, caller, content).value;
    var key := StorageKey(m.id, c.hash(data));
    assert key[..|key| - 65] == m.id;
  }

  lemma {:induction false} PlanTargetsNamed(c: Codec, a: Accounts, db: Db, caller: string, contents: seq<Content>,
                                            i: nat, env: Env, n: nat)
    requires Lawful(c) && i <= |contents| && n < |Plan(c, a, db, caller, contents, i, env)|
    ensures Target(Plan(c, a, db, caller, contents, i, env)[n]) in NamedModules(c, a, db.modules, caller, contents, i)
    decreases |contents| - i
  {
    hide *;
    PlanEnd(c, a, db, caller, contents, i, env);
    NamedModulesStep(c, a, db.modules, caller, contents, i);
    PlanStep(c, a, db, caller, contents, i, env);
    var ws := ContentPlan(c, a, db, caller, contents[i], i, env);
    if n < |ws| {
      ContentTargetsItsModule(c, a, db, caller, contents[i], i, env, n);
    } else {
      var db1 := AfterContent(c, a, db, caller, contents[i], i, env);
      PlanTargetsNamed(c, a, db1, caller, contents, i + 1, env, n - |ws|);
    }
  }

  /** Everything stored for a module is the same in both states. */
  ghost predicate SameModuleData(db: Db, db': Db, moduleId: string) {
    && (forall x: string :: LabelAt(db', (moduleId, x)) == LabelAt(db, (moduleId, x)))
    && (forall x: string :: (moduleId, x) in db'.commits <==> (moduleId, x) in db.commits)
    && (forall x: string :: (moduleId, x) in db.commits ==> db'.commits[(moduleId, x)] == db.commits[(moduleId, x)])
    && (forall x: string :: |x| == 64 ==>
          (StorageKey(moduleId, x) in db'.blobs <==> StorageKey(moduleId, x) in db.blobs)
          && (StorageKey(moduleId, x) in db.blobs ==>
                db'.blobs[StorageKey(moduleId, x)] == db.blobs[StorageKey(moduleId, x)]))
  }

  lemma ForeignWrite(db: Db, w: Write, moduleId: string)
    requires Target(w) != moduleId
    ensures SameModuleData(db, Apply(db, w), moduleId)
  {
    forall x: string | |x| == 64 ensures w.PutBlob? ==> w.key != StorageKey(moduleId, x) {
      var key := StorageKey(moduleId, x);
      assert key[..|key| - 65] == moduleId;
    }
  }

  lemma {:induction false} ForeignWrites(db: Db, ws: seq<Write>, moduleId: string)
    requires forall n :: 0 <= n < |ws| ==> Target(ws[n]) != moduleId
    ensures SameModuleData(db, ApplyAll(db, ws), moduleId)
  {
    if ws != [] {
      var n := |ws| - 1;
      ForeignWrites(db, ws[..n], moduleId);
      ForeignWrite(ApplyAll(db, ws[..n]), ws[n], moduleId);
    }
  }

  lemma ForeignWritesAppend(db: Db, ws: seq<Write>, part: seq<Write>, moduleId: string)
    requires forall n :: 0 <= n < |ws| ==> Target(ws[n]) != moduleId
    requires forall n :: 0 <= n < |part| ==> Target(part[n]) != moduleId
    ensures SameModuleData(db, ApplyAll(db, ws + part), moduleId)
  {
    ForeignWrites(db, ws + part, moduleId);
  }

  lemma {:induction false} PlanKeepsModules(c: Codec, a: Accounts, db: Db, caller: string, contents: seq<Content>,
                                            i: nat, env: Env)
    requires i <= |contents|
    ensures ApplyAll(db, Plan(c, a, db, caller, contents, i, env)).modules == db.modules
    decreases |contents| - i
  {
    hide *;
    PlanEnd(c, a, db, caller, contents, i, env);
    if i < |contents| && Check(c, a, db.modules, caller, contents[i]).Ok? {
      PlanStep(c, a, db, caller, contents, i, env);
      PlanKeepsModules(c, a, AfterContent(c, a, db, caller, contents[i], i, env), caller, contents, i + 1, env);
    }
  }

  /** The contents that an upload has got to: those before its stop, and the one there if it has written for it. */
  function Reached(contents: seq<Content>, stop: nat, part: seq<Write>): seq<Content>
    requires stop <= |contents|
  {
    if part == [] || stop == |contents| then contents[..stop] else contents[..stop + 1]
  }

  lemma NamedByPrefix(c: Codec, a: Accounts, modules: map<(string, string), Module>, caller: string,
                      contents: seq<Content>, shorter: nat, x: string)
    requires shorter <= |contents| && x in NamedModules(c, a, modules, caller, contents[..shorter], 0)
    ensures x in NamedModules(c, a, modules, caller, contents, 0)
  {
    var j :| 0 <= j < shorter && Check(c, a, modules, caller, contents[..shorter][j]).Ok?
      && x == Check(c, a, modules, caller, contents[..shorter][j]).value.0.id;
    assert contents[..shorter][j] == contents[j];
  }

  lemma PartTargetsNamed(c: Codec, a: Accounts, db: Db, caller: string, contents: seq<Content>, env: Env,
                         stop: nat, part: seq<Write>, n: nat)
    requires Lawful(c) && stop < |contents| && n < |part|
    requires part <= ContentPlan(c, a, ApplyAll(db, Plan(c, a, db, caller, contents[..stop], 0, env)), caller,
                                 contents[stop], stop, env)
    ensures Target(part[n]) in NamedModules(c, a, db.modules, caller, contents[..stop + 1], 0)
  {
    hide Lawful, ApplyAll, Plan, ContentPlan, Check, Target;
    var db1 := ApplyAll(db, Plan(c, a, db, caller, contents[..stop], 0, env));
    PlanKeepsModules(c, a, db, caller, contents[..stop], 0, env);
    assert part[n] == ContentPlan(c, a, db1, caller, contents[stop], stop, env)[n];
    ContentTargetsItsModule(c, a, db1, caller, contents[stop], stop, env, n);
    assert contents[..stop + 1][stop] == contents[stop];
  }

  // An upload that stops somewhere has changed nothing that is stored for a module which none of the contents it
  // has got to names and passes for, whatever the contents after that name.
  lemma UploadFrame(c: Codec, a: Accounts, db: Db, caller: string, contents: seq<Content>, env: Env,
                    done: seq<Write>, stop: nat, part: seq<Write>, moduleId: string)
    requires Lawful(c) && StopsAt(c, a, db, caller, contents, 0, env, done, stop, part)
    requires moduleId !in NamedModules(c, a, db.modules, caller, Reached(contents, stop, part), 0)
    ensures SameModuleData(db, ApplyAll(db, done), moduleId)
  {
    hide Lawful, ApplyAll, Plan, ContentPlan, Check, Target, SameModuleData, NamedModules;
    var ws := Plan(c, a, db, caller, contents[..stop], 0, env);
    var reached := Reached(contents, stop, part);
    assert reached[..stop] == contents[..stop];
    forall n | 0 <= n < |ws| ensures Target(ws[n]) != moduleId {
      PlanTargetsNamed(c, a, db, caller, contents[..stop], 0, env, n);
      NamedByPrefix(c, a, db.modules, caller, reached, stop, Target(ws[n]));
    }
    forall n | 0 <= n < |part| ensures Target(part[n]) != moduleId {
      PartTargetsNamed(c, a, db, caller, contents, env, stop, part, n);
    }
    ForeignWritesAppend(db, ws, part, moduleId);
  }
}
