/** A small registry with two archives, on which the assumptions of the other modules hold together, and runs of it
    in which the code does what a reader may not expect. */
module Witnesses {
  import opened Model
  import opened Authz
  import opened Archive
  import opened Store
  import opened Resolve
  import opened Upload
  import opened Registry
  import opened Concurrent
  import Runs

  // ---------- two archives ----------

  const FILES_A: seq<File> := [File("a", [1])]
  const FILES_B: seq<File> := [File("b", [2])]
  const ARCHIVE_A: Bytes := [1]
  const ARCHIVE_B: Bytes := [2]

  function Digits(ch: char): (r: string)
    ensures |r| == 64 && forall i :: 0 <= i < 64 ==> r[i] == ch
  {
    seq(64, _ => ch)
  }

  function HashOf(b: Bytes): string {
    if b == ARCHIVE_A then Digits('a') else Digits('b')
  }

  function Encode(files: seq<File>): Option<Bytes> {
    if files == FILES_A then Some(ARCHIVE_A) else if files == FILES_B then Some(ARCHIVE_B) else None
  }

  function Decode(b: Bytes): Option<seq<Entry>> {
    if b == ARCHIVE_A then Some(EntriesOf(FILES_A)) else if b == ARCHIVE_B then Some(EntriesOf(FILES_B)) else None
  }

  const DEMO: Codec := Codec(HashOf, Encode, Decode)

  const ID_A: string := Digits('a')
  const ID_B: string := Digits('b')

  lemma IdsDiffer()
    ensures ID_A != ID_B && ID_A != "" && ID_B != ""
    ensures DEMO.hash(ARCHIVE_A) == ID_A && DEMO.hash(ARCHIVE_B) == ID_B
  {
    assert ID_A[0] == 'a' && ID_B[0] == 'b';
  }

  lemma ShortPathOk(p: string)
    requires |p| == 1 && p[0] != '/' && p[0] != '\\' && p[0] != '.'
    ensures PathOk(p)
  {
    assert p[0..] == p && p[1..] == "";
    forall i | 0 <= i <= |p| ensures !("\\" <= p[i..]) && !(".." <= p[i..]) {}
  }

  // The assumptions on the library can be met, and met without collisions among the archives of two accepted lists.
  lemma DemoIsLawful()
    ensures Lawful(DEMO) && NoCollision(DEMO, {ARCHIVE_A, ARCHIVE_B})
    ensures Acceptable(FILES_A) && DEMO.encode(FILES_A) == Some(ARCHIVE_A)
    ensures Acceptable(FILES_B) && DEMO.encode(FILES_B) == Some(ARCHIVE_B)
  {
    IdsDiffer();
    ShortPathOk("a");
    ShortPathOk("b");
    assert FILES_A[0] != FILES_B[0];
    assert TotalSize(FILES_A[..0]) == 0 && TotalSize(FILES_B[..0]) == 0;
  }

  // ---------- a user, a module, two contents ----------

  const ANN: Accounts := Accounts(map["u" := User("u", "ann")], map["ann" := "u"], map[], map[])
  const REPO: Module := Module("m", "ann", OwnedByUser, "repo", Public)
  const TABLES: Db := EMPTY_DB.(modules := map[("ann", "repo") := REPO])

  function ContentA(labelRefs: seq<string>): Content {
    Content(Some(("ann", "repo")), FILES_A, labelRefs)
  }

  function ContentB(labelRefs: seq<string>): Content {
    Content(Some(("ann", "repo")), FILES_B, labelRefs)
  }

  function At(t: Time): Env {
    Env(_ => false, _ => t, (i: nat, j: nat) => "l")
  }

  lemma BothPass(labelRefs: seq<string>)
    ensures Check(DEMO, ANN, TABLES.modules, "u", ContentA(labelRefs)) == Ok((REPO, ARCHIVE_A))
    ensures Check(DEMO, ANN, TABLES.modules, "u", ContentB(labelRefs)) == Ok((REPO, ARCHIVE_B))
  {
    hide Acceptable;
    DemoIsLawful();
    assert CanWrite(ANN, "u", REPO);
  }

  // Pushing both contents in one request and pulling the default reference gives the second.
  lemma RoundTripHappens(t: Time)
    ensures var contents := [ContentA([]), ContentB([])];
      var db := ApplyAll(TABLES, Plan(DEMO, ANN, TABLES, "u", contents, 0, At(t)));
      var pulled := DownloadOne(DEMO, ANN, db, "u", ByName("ann", "repo", NoChild), NO_FAULTS);
      pulled.Ok? && pulled.value.0.id == ID_B && pulled.value.1 == FILES_B
  {
    hide Lawful, Acceptable, Plan, ApplyAll, DownloadOne, Check, NoCollision;
    var contents := [ContentA([]), ContentB([])];
    DemoIsLawful();
    IdsDiffer();
    BothPass([]);
    assert AllPass(DEMO, ANN, TABLES.modules, "u", contents);
    ArchivesAre(contents);
    TablesAreIntact();
    assert LabelNames(ContentB([])) == ["main"] && "main" in LabelNames(ContentB([]));
    PushThenPull(DEMO, ANN, TABLES, "u", contents, At(t), 1, ("ann", "repo"), "main");
  }

  lemma TablesAreIntact()
    ensures Intact(DEMO, TABLES)
  {
  }

  lemma ArchivesAre(contents: seq<Content>)
    requires contents == [ContentA([]), ContentB([])]
    ensures NoCollision(DEMO, Archives(DEMO, ANN, TABLES.modules, "u", contents))
  {
    hide Check;
    BothPass([]);
    DemoIsLawful();
    assert Archives(DEMO, ANN, TABLES.modules, "u", contents) <= {ARCHIVE_A, ARCHIVE_B};
  }

  // Pushing A at 1, B at 2 and A again at 3 takes the update time of "main" from 2 back to 1.
  lemma RepushTurnsTimeBack()
    ensures var db1 := Pushed(DEMO, ANN, TABLES, "u", ContentA([]), At(1));
      var db2 := Pushed(DEMO, ANN, db1, "u", ContentB([]), At(2));
      var db3 := Pushed(DEMO, ANN, db2, "u", ContentA([]), At(3));
      && ("m", "main") in db2.labels && db2.labels[("m", "main")].updatedAt == 2
      && ("m", "main") in db3.labels && db3.labels[("m", "main")].updatedAt == 1
  {
    hide Check, Pushed;
    BothPass([]);
    IdsDiffer();
    assert LabelNames(ContentA([])) == ["main"] == LabelNames(ContentB([]));
    assert "main" in LabelNames(ContentA([])) && "main" in LabelNames(ContentB([]));
    UpdateTimeGoesBack(DEMO, ANN, TABLES, "u", ContentA([]), ContentB([]), REPO, ARCHIVE_A, ARCHIVE_B, "main",
                       At(1), At(2), At(3));
  }

  // ---------- a pull that a fault leads elsewhere ----------

  function HappenAll(c: Codec, s: System, events: seq<Event>): System
    decreases |events|
  {
    if events == [] then s else HappenAll(c, Happen(c, s, events[0]), events[1..])
  }

  lemma HappenFirst(c: Codec, s: System, e: Event, events: seq<Event>)
    ensures HappenAll(c, s, [e] + events) == HappenAll(c, Happen(c, s, e), events)
  {
    assert ([e] + events)[1..] == events;
  }

  lemma HappenNone(c: Codec, s: System)
    ensures HappenAll(c, s, []) == s
  {
  }

  lemma {:induction false} AfterMore(c: Codec, events: seq<Event>, more: seq<Event>)
    ensures After(c, events + more) == HappenAll(c, After(c, events), more)
    decreases |more|
  {
    hide Happen;
    if more == [] {
      assert events + more == events;
    } else {
      assert events + more == (events + [more[0]]) + more[1..];
      AfterMore(c, events + [more[0]], more[1..]);
      assert (events + [more[0]])[..|events|] == events;
    }
  }

  /** One call of a request. */
  function Call(pid: nat, fails: bool): Event {
    Step(pid, fails, "l")
  }

  lemma {:induction false} HappenMore(c: Codec, s: System, events: seq<Event>, more: seq<Event>)
    ensures HappenAll(c, s, events + more) == HappenAll(c, HappenAll(c, s, events), more)
    decreases |events|
  {
    hide Happen;
    if events == [] {
      assert events + more == more;
    } else {
      assert (events + more)[1..] == events[1..] + more;
      HappenMore(c, Happen(c, s, events[0]), events[1..], more);
    }
  }

  lemma HappenOne(c: Codec, s: System, e: Event)
    ensures HappenAll(c, s, [e]) == Happen(c, s, e)
  {
    HappenFirst(c, s, e, []);
    HappenNone(c, Happen(c, s, e));
    assert [e] + [] == [e];
  }

  lemma HappenFive(c: Codec, s: System, e0: Event, e1: Event, e2: Event, e3: Event, e4: Event)
    ensures HappenAll(c, s, [e0] + ([e1] + ([e2] + ([e3] + ([e4] + [])))))
      == Happen(c, Happen(c, Happen(c, Happen(c, Happen(c, s, e0), e1), e2), e3), e4)
  {
    hide HappenAll, Happen;
    var s0 := Happen(c, s, e0);
    var s1 := Happen(c, s0, e1);
    var s2 := Happen(c, s1, e2);
    var s3 := Happen(c, s2, e3);
    HappenFirst(c, s, e0, [e1] + ([e2] + ([e3] + ([e4] + []))));
    HappenFirst(c, s0, e1, [e2] + ([e3] + ([e4] + [])));
    HappenFirst(c, s1, e2, [e3] + ([e4] + []));
    HappenFirst(c, s2, e3, [e4] + []);
    HappenFirst(c, s3, e4, []);
    HappenNone(c, Happen(c, s3, e4));
  }

  /** A request with one content arrives and stores its blob and its commit. */
  function PushStart(pid: nat, content: Content): seq<Event> {
    [Arrive(pid, Push("u", [content], 0, Checking))]
    + ([Call(pid, false)] + ([Call(pid, false)] + ([Call(pid, false)] + ([Call(pid, false)] + []))))
  }

  /** Then it moves its one label. */
  function PushRun(pid: nat, content: Content): seq<Event> {
    PushStart(pid, content) + [Call(pid, false)]
  }

  lemma PushStarts(c: Codec, s: System, pid: nat, content: Content, m: Module, data: Bytes)
    requires pid !in s.procs
    requires Check(c, s.accounts, s.db.modules, "u", content) == Ok((m, data))
    requires (m.id, c.hash(data)) !in s.db.commits
    ensures var s', id := HappenAll(c, s, PushStart(pid, content)), c.hash(data);
      && s'.accounts == s.accounts && s'.clock == s.clock
      && s'.procs == s.procs[pid := Push("u", [content], 0, Moving(m, data, s.clock, 0))]
      && s'.db == s.db.(commits := s.db.commits[(m.id, id) := Commit(id, m.id, StorageKey(m.id, id), "u", s.clock)],
                        blobs := s.db.blobs[StorageKey(m.id, id) := data])
  {
    hide HappenAll, Happen, Check, LabelNames, StorageKey, PushStep, Apply;
    var push, step := Push("u", [content], 0, Checking), Call(pid, false);
    var s0 := s.(procs := s.procs[pid := push]);
    var s1 := s.(procs := s.procs[pid := push.(pushPc := Putting(m, data))]);
    var s2 := s.(db := s.db.(blobs := s.db.blobs[StorageKey(m.id, c.hash(data)) := data]),
                 procs := s.procs[pid := push.(pushPc := Looking(m, data))]);
    var s3 := s2.(procs := s.procs[pid := push.(pushPc := Inserting(m, data, s.clock))]);
    FreshArrives(c, s, pid, push);
    PushChecks(c, s0, pid, push, m, data);
    Overwritten(s.procs, pid, push, s1.procs[pid]);
    assert Happen(c, s0, step) == s1;
    PushPuts(c, s1, pid, m, data);
    Overwritten(s.procs, pid, s1.procs[pid], s2.procs[pid]);
    assert Happen(c, s1, step) == s2;
    PushLooks(c, s2, pid, m, data);
    Overwritten(s.procs, pid, s2.procs[pid], s3.procs[pid]);
    assert Happen(c, s2, step) == s3;
    PushInserts(c, s3, pid, m, data, s.clock);
    Overwritten(s.procs, pid, s3.procs[pid], push.(pushPc := Moving(m, data, s.clock, 0)));
    HappenFive(c, s, Arrive(pid, push), step, step, step, step);
  }

  lemma Overwritten<K, V>(rows: map<K, V>, k: K, v: V, w: V)
    ensures rows[k := v][k := w] == rows[k := w]
  {
  }

  lemma PushChecks(c: Codec, s: System, pid: nat, push: Proc, m: Module, data: Bytes)
    requires pid in s.procs && s.procs[pid] == push && push.Push? && push.pushPc.Checking? && push.i < |push.contents|
    requires Check(c, s.accounts, s.db.modules, push.caller, push.contents[push.i]) == Ok((m, data))
    ensures Happen(c, s, Call(pid, false)) == s.(procs := s.procs[pid := push.(pushPc := Putting(m, data))])
  {
    hide Check, LabelNames, Happen;
    PushCalls(c, s, pid);
  }

  lemma PushPuts(c: Codec, s: System, pid: nat, m: Module, data: Bytes)
    requires pid in s.procs && s.procs[pid].Push? && s.procs[pid].pushPc == Putting(m, data)
    requires s.procs[pid].i < |s.procs[pid].contents|
    ensures Happen(c, s, Call(pid, false))
      == s.(db := s.db.(blobs := s.db.blobs[StorageKey(m.id, c.hash(data)) := data]),
            procs := s.procs[pid := s.procs[pid].(pushPc := Looking(m, data))])
  {
    hide Check, LabelNames, Happen, StorageKey;
    PushCalls(c, s, pid);
  }

  lemma PushLooks(c: Codec, s: System, pid: nat, m: Module, data: Bytes)
    requires pid in s.procs && s.procs[pid].Push? && s.procs[pid].pushPc == Looking(m, data)
    requires s.procs[pid].i < |s.procs[pid].contents| && (m.id, c.hash(data)) !in s.db.commits
    ensures Happen(c, s, Call(pid, false))
      == s.(procs := s.procs[pid := s.procs[pid].(pushPc := Inserting(m, data, s.clock))])
  {
    hide Check, LabelNames, Happen, StorageKey;
    PushCalls(c, s, pid);
  }

  lemma PushInserts(c: Codec, s: System, pid: nat, m: Module, data: Bytes, t: Time)
    requires pid in s.procs && s.procs[pid].Push? && s.procs[pid].pushPc == Inserting(m, data, t)
    requires s.procs[pid].i < |s.procs[pid].contents| && (m.id, c.hash(data)) !in s.db.commits
    ensures var id := c.hash(data);
      Happen(c, s, Call(pid, false))
      == s.(db := s.db.(commits :=
                          s.db.commits[(m.id, id) := Commit(id, m.id, StorageKey(m.id, id), s.procs[pid].caller, t)]),
            procs := s.procs[pid := s.procs[pid].(pushPc := Moving(m, data, t, 0))])
  {
    hide Check, LabelNames, Happen, StorageKey;
    PushCalls(c, s, pid);
  }

  lemma FreshArrives(c: Codec, s: System, pid: nat, p: Proc)
    requires pid !in s.procs && Fresh(p)
    ensures Happen(c, s, Arrive(pid, p)) == s.(procs := s.procs[pid := p])
  {
  }

  lemma PushCalls(c: Codec, s: System, pid: nat)
    requires pid in s.procs && s.procs[pid].Push?
    ensures Happen(c, s, Call(pid, false))
      == s.(db := PushStep(c, s, s.procs[pid], false, "l").0,
            procs := s.procs[pid := PushStep(c, s, s.procs[pid], false, "l").1])
  {
    hide PushStep;
  }

  lemma LabelMoves(c: Codec, s: System, pid: nat, content: Content, m: Module, data: Bytes, t: Time, name: string)
    requires pid in s.procs && s.procs[pid] == Push("u", [content], 0, Moving(m, data, t, 0))
    requires LabelNames(content) == [name]
    ensures Happen(c, s, Call(pid, false))
      == s.(db := Apply(s.db, UpsertLabel(Label("l", m.id, name, c.hash(data), t, t))),
            procs := s.procs[pid := s.procs[pid].(pushPc := Moving(m, data, t, 1))])
  {
    hide LabelNames, Apply;
  }

  lemma PushHappens(c: Codec, s: System, pid: nat, content: Content, m: Module, data: Bytes, name: string)
    requires pid !in s.procs && LabelNames(content) == [name]
    requires Check(c, s.accounts, s.db.modules, "u", content) == Ok((m, data))
    requires (m.id, c.hash(data)) !in s.db.commits && (m.id, name) !in s.db.labels
    ensures var s', id := HappenAll(c, s, PushRun(pid, content)), c.hash(data);
      && s'.accounts == s.accounts && s'.procs.Keys == s.procs.Keys + {pid}
      && (forall q :: q in s.procs ==> s'.procs[q] == s.procs[q])
      && s'.db == Db(s.db.modules,
                     s.db.commits[(m.id, id) := Commit(id, m.id, StorageKey(m.id, id), "u", s.clock)],
                     s.db.labels[(m.id, name) := Label("l", m.id, name, id, s.clock, s.clock)],
                     s.db.blobs[StorageKey(m.id, id) := data])
      && s'.clock == s.clock
  {
    hide HappenAll, Happen, Check, LabelNames, StorageKey, PushStart;
    PushStarts(c, s, pid, content, m, data);
    var s4 := HappenAll(c, s, PushStart(pid, content));
    HappenMore(c, s, PushStart(pid, content), [Call(pid, false)]);
    HappenOne(c, s4, Call(pid, false));
    LabelMoves(c, s4, pid, content, m, data, s.clock, name);
  }

  const PINNED: ResourceRef := ByName("ann", "repo", RefName(ID_A))

  /** Content A is pushed to "main", and content B to a label whose name is the ID of A. */
  const SETUP: seq<Event> :=
    [ChangeAccounts(ANN), CreateModule(REPO)] + PushRun(0, ContentA([])) + PushRun(1, ContentB([ID_A]))

  /** Then a pull by the ID of A arrives, and its second call, which reads the commit, fails. */
  const PULL: seq<Event> :=
    [Arrive(2, Pull("", PINNED, ModuleRead, false))]
    + ([Call(2, false)] + ([Call(2, true)] + ([Call(2, false)] + ([Call(2, false)] + ([Call(2, false)] + [])))))

  lemma Start()
    ensures After(DEMO, [ChangeAccounts(ANN), CreateModule(REPO)]) == System(TABLES, ANN, 0, map[])
  {
    var events := [ChangeAccounts(ANN), CreateModule(REPO)];
    assert events[..1] == [ChangeAccounts(ANN)] && [ChangeAccounts(ANN)][..0] == [];
    assert After(DEMO, []) == INITIAL;
  }

  const STORED_A: Commit := Commit(ID_A, "m", StorageKey("m", ID_A), "u", 0)
  const STORED_B: Commit := Commit(ID_B, "m", StorageKey("m", ID_B), "u", 0)

  lemma SetupHappens()
    ensures var s := After(DEMO, SETUP);
      && s.accounts == ANN && s.procs.Keys == {0, 1} && s.db.modules == TABLES.modules
      && ("m", ID_A) in s.db.commits && s.db.commits[("m", ID_A)] == STORED_A
      && ("m", ID_B) in s.db.commits && s.db.commits[("m", ID_B)] == STORED_B
      && ("m", ID_A) in s.db.labels && s.db.labels[("m", ID_A)].commitId == ID_B
      && STORED_B.storageKey in s.db.blobs && s.db.blobs[STORED_B.storageKey] == ARCHIVE_B
      && s.db.blobs.Values <= {ARCHIVE_A, ARCHIVE_B}
  {
    hide HappenAll, After, Check, LabelNames;
    var start := [ChangeAccounts(ANN), CreateModule(REPO)];
    Start();
    IdsDiffer();
    BothPass([]);
    BothPass([ID_A]);
    OneName();
    AfterMore(DEMO, start, PushRun(0, ContentA([])));
    PushHappens(DEMO, System(TABLES, ANN, 0, map[]), 0, ContentA([]), REPO, ARCHIVE_A, "main");
    var s := After(DEMO, start + PushRun(0, ContentA([])));
    AfterMore(DEMO, start + PushRun(0, ContentA([])), PushRun(1, ContentB([ID_A])));
    PushHappens(DEMO, s, 1, ContentB([ID_A]), REPO, ARCHIVE_B, ID_A);
  }

  lemma OneName()
    ensures LabelNames(ContentA([])) == ["main"] && LabelNames(ContentB([ID_A])) == [ID_A] && ID_A != "main"
  {
    IdsDiffer();
  }

  // A pull by the ID of a stored commit, whose commit read fails, answers with another commit: the one to which a
  // label of that name points.
  lemma FaultLeadsElsewhere()
    ensures ("m", ID_A) in After(DEMO, SETUP).db.commits && ID_A != ID_B
    ensures var s := After(DEMO, SETUP + PULL);
      && 2 in s.procs && s.procs[2] == Pull("", PINNED, Finished(Answered(REPO, STORED_B, FILES_B)), true)
      && s.db == After(DEMO, SETUP).db && s.accounts == ANN
  {
    hide HappenAll, After, StorageKey;
    var pull, s := Pull("", PINNED, ModuleRead, false), After(DEMO, SETUP);
    SetupHappens();
    IdsDiffer();
    DemoIsLawful();
    UnpackInvertsEncode(DEMO, FILES_B);
    AfterMore(DEMO, SETUP, PULL);
    PullHappens(s);
  }

  // Without a fault the same reference gives the same content before and after, though the label is there.
  lemma PinHolds()
    ensures var r := DownloadOne(DEMO, ANN, After(DEMO, SETUP + PULL).db, "", PINNED, NO_FAULTS);
      r.Ok? && r.value.0 == STORED_A && r == DownloadOne(DEMO, ANN, After(DEMO, SETUP).db, "", PINNED, NO_FAULTS)
  {
    hide HappenAll, After, Happen, DownloadOne, StorageKey, Lawful, Intact, Unpack, SystemOk;
    SetupHappens();
    FaultLeadsElsewhere();
    DemoIsLawful();
    AlwaysOk(DEMO, SETUP);
    SystemIsIntact(After(DEMO, SETUP));
    assert (SETUP + PULL)[..|SETUP|] == SETUP;
    Runs.PinnedForever(DEMO, SETUP + PULL, |SETUP|, "", "ann", "repo", ID_A);
    var files := DownloadByCommit(DEMO, ANN, After(DEMO, SETUP).db, "", "ann", "repo", ID_A);
  }

  lemma SystemIsIntact(s: System)
    requires SystemOk(DEMO, s)
    ensures Intact(DEMO, s.db)
  {
  }

  lemma PullHappens(s: System)
    requires 2 !in s.procs && ("ann", "repo") in s.db.modules && s.db.modules[("ann", "repo")] == REPO
    requires ("m", ID_A) in s.db.labels && s.db.labels[("m", ID_A)].commitId == ID_B && ID_A != ""
    requires ("m", ID_B) in s.db.commits && s.db.commits[("m", ID_B)] == STORED_B
    requires STORED_B.storageKey in s.db.blobs && Unpack(DEMO, s.db.blobs[STORED_B.storageKey]) == Some(FILES_B)
    ensures var s' := HappenAll(DEMO, s, PULL);
      && 2 in s'.procs && s'.procs[2] == Pull("", PINNED, Finished(Answered(REPO, STORED_B, FILES_B)), true)
      && s'.db == s.db && s'.accounts == s.accounts
  {
    hide HappenAll, Happen, Unpack, StorageKey, Digits;
    var pull, ok, fault := Pull("", PINNED, ModuleRead, false), Call(2, false), Call(2, true);
    HappenFirst(DEMO, s, Arrive(2, pull), [ok] + ([fault] + ([ok] + ([ok] + ([ok] + [])))));
    var s0 := s.(procs := s.procs[2 := pull]);
    FreshArrives(DEMO, s, 2, pull);
    HappenFive(DEMO, s0, ok, fault, ok, ok, ok);
    PullCalls(s0, pull, false);
    var p1 := pull.(pullPc := RefRead(REPO, ID_A));
    var s1 := s.(procs := s.procs[2 := p1]);
    assert Happen(DEMO, s0, ok) == s1;
    PullCalls(s1, p1, true);
    var p2 := pull.(pullPc := LabelRead(REPO, ID_A, false), faulted := true);
    var s2 := s.(procs := s.procs[2 := p2]);
    assert Happen(DEMO, s1, fault) == s2;
    PullCalls(s2, p2, false);
    var p3 := p2.(pullPc := CommitRead(REPO, ID_A, ID_B));
    var s3 := s.(procs := s.procs[2 := p3]);
    assert Happen(DEMO, s2, ok) == s3;
    PullCalls(s3, p3, false);
    var p4 := p2.(pullPc := BlobRead(REPO, STORED_B));
    assert Happen(DEMO, s3, ok) == s.(procs := s.procs[2 := p4]);
    PullCalls(s.(procs := s.procs[2 := p4]), p4, false);
  }

  lemma PullCalls(s: System, p: Proc, fails: bool)
    requires 2 in s.procs && s.procs[2] == p && p.Pull?
    ensures Happen(DEMO, s, Call(2, fails))
      == s.(procs := s.procs[2 := p.(pullPc := PullNext(DEMO, s, p, fails), faulted := p.faulted || fails)])
  {
    hide PullNext;
  }

  // ---------- label times that fall behind ----------

  const START: seq<Event> := [ChangeAccounts(ANN), CreateModule(REPO)]

  lemma TickHappens(c: Codec, s: System, elapsed: nat)
    ensures HappenAll(c, s, [Tick(elapsed)]) == s.(clock := s.clock + elapsed)
  {
    HappenOne(c, s, Tick(elapsed));
  }

  /** Content A is pushed for the first time and stops before its label; time passes; content B is pushed to the
      same label. */
  const SLOW_PUSH: seq<Event> := START + PushStart(0, ContentA([])) + [Tick(5)] + PushRun(1, ContentB([]))

  lemma SlowPushHappens()
    ensures var s := After(DEMO, SLOW_PUSH);
      && ("m", "main") in s.db.labels && s.db.labels[("m", "main")] == Label("l", "m", "main", ID_B, 5, 5)
      && 0 in s.procs && s.procs[0] == Push("u", [ContentA([])], 0, Moving(REPO, ARCHIVE_A, 0, 0))
  {
    hide HappenAll, Happen, After, Check, LabelNames, PushStart, PushRun, StorageKey;
    Start();
    IdsDiffer();
    BothPass([]);
    MainOnly();
    var s0 := System(TABLES, ANN, 0, map[]);
    PushStarts(DEMO, s0, 0, ContentA([]), REPO, ARCHIVE_A);
    AfterMore(DEMO, START, PushStart(0, ContentA([])));
    var s1 := After(DEMO, START + PushStart(0, ContentA([])));
    AfterMore(DEMO, START + PushStart(0, ContentA([])), [Tick(5)]);
    TickHappens(DEMO, s1, 5);
    var s2 := After(DEMO, START + PushStart(0, ContentA([])) + [Tick(5)]);
    AfterMore(DEMO, START + PushStart(0, ContentA([])) + [Tick(5)], PushRun(1, ContentB([])));
    PushHappens(DEMO, s2, 1, ContentB([]), REPO, ARCHIVE_B, "main");
  }

  lemma MainOnly()
    ensures LabelNames(ContentA([])) == ["main"] && LabelNames(ContentB([])) == ["main"]
    ensures LabelNames(ContentA(["x"])) == ["x"] && LabelNames(ContentB(["x"])) == ["x"]
  {
  }

  // Nothing is pushed twice, and still the label's update time goes back: from 5 to 0, the time that the slow push
  // read before its writes.
  lemma FirstPushTurnsTimeBack()
    ensures var s, s' := After(DEMO, SLOW_PUSH), After(DEMO, SLOW_PUSH + [Call(0, false)]);
      && ("m", "main") in s.db.labels && s.db.labels[("m", "main")].updatedAt == 5
      && ("m", "main") in s'.db.labels && s'.db.labels[("m", "main")].updatedAt == 0
  {
    hide HappenAll, Happen, After, LabelNames, Check;
    SlowPushHappens();
    MainOnly();
    AfterMore(DEMO, SLOW_PUSH, [Call(0, false)]);
    HappenOne(DEMO, After(DEMO, SLOW_PUSH), Call(0, false));
    LabelMoves(DEMO, After(DEMO, SLOW_PUSH), 0, ContentA([]), REPO, ARCHIVE_A, 0, "main");
  }

  const TO_A: LabelValue := LabelValue(Some(("ann", "repo")), "x", ID_A)

  /** A label request arrives, and is authorised and checked. */
  const MOVE_START: seq<Event> :=
    [Arrive(1, Move("u", [TO_A], 0, Authorizing))] + ([Call(1, false)] + ([Call(1, false)] + []))

  /** Content A is pushed; a request to point "x" to it stops before its write; time passes; B is pushed to "x". */
  const SLOW_MOVE: seq<Event> := START + PushRun(0, ContentA([])) + MOVE_START + [Tick(5)] + PushRun(2, ContentB(["x"]))

  lemma MoveStarts(s: System)
    requires 1 !in s.procs && s.accounts == ANN && ("m", ID_A) in s.db.commits
    requires ("ann", "repo") in s.db.modules && s.db.modules[("ann", "repo")] == REPO
    ensures HappenAll(DEMO, s, MOVE_START) == s.(procs := s.procs[1 := Move("u", [TO_A], 0, Writing(REPO, s.clock))])
  {
    hide HappenAll, Digits;
    var move, step := Move("u", [TO_A], 0, Authorizing), Call(1, false);
    assert CanAdmin(ANN, "u", REPO);
    var s0 := Happen(DEMO, s, Arrive(1, move));
    HappenFirst(DEMO, s, Arrive(1, move), [step] + ([step] + []));
    var s1 := Happen(DEMO, s0, step);
    assert s1 == s.(procs := s.procs[1 := move.(movePc := Verifying(REPO))]);
    HappenFirst(DEMO, s0, step, [step] + []);
    HappenFirst(DEMO, s1, step, []);
    HappenNone(DEMO, Happen(DEMO, s1, step));
  }

  lemma SlowMoveHappens()
    ensures var s := After(DEMO, SLOW_MOVE);
      && ("m", "x") in s.db.labels && s.db.labels[("m", "x")] == Label("l", "m", "x", ID_B, 5, 5)
      && 1 in s.procs && s.procs[1] == Move("u", [TO_A], 0, Writing(REPO, 0))
  {
    hide HappenAll, Happen, After, Check, LabelNames, PushStart, PushRun, StorageKey, Digits;
    Start();
    IdsDiffer();
    BothPass([]);
    BothPass(["x"]);
    MainOnly();
    PushHappens(DEMO, System(TABLES, ANN, 0, map[]), 0, ContentA([]), REPO, ARCHIVE_A, "main");
    var e1 := START + PushRun(0, ContentA([]));
    AfterMore(DEMO, START, PushRun(0, ContentA([])));
    MoveStarts(After(DEMO, e1));
    AfterMore(DEMO, e1, MOVE_START);
    AfterMore(DEMO, e1 + MOVE_START, [Tick(5)]);
    TickHappens(DEMO, After(DEMO, e1 + MOVE_START), 5);
    var e2 := e1 + MOVE_START + [Tick(5)];
    AfterMore(DEMO, e2, PushRun(2, ContentB(["x"])));
    PushHappens(DEMO, After(DEMO, e2), 2, ContentB(["x"]), REPO, ARCHIVE_B, "x");
  }

  // The same with a label request whose clock was read before another request moved the label.
  lemma SlowMoveTurnsTimeBack()
    ensures var s, s' := After(DEMO, SLOW_MOVE), After(DEMO, SLOW_MOVE + [Call(1, false)]);
      && ("m", "x") in s.db.labels && s.db.labels[("m", "x")].updatedAt == 5
      && ("m", "x") in s'.db.labels && s'.db.labels[("m", "x")].updatedAt == 0
  {
    hide HappenAll, After;
    SlowMoveHappens();
    AfterMore(DEMO, SLOW_MOVE, [Call(1, false)]);
    HappenOne(DEMO, After(DEMO, SLOW_MOVE), Call(1, false));
  }
}
