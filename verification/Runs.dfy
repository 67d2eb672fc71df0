/** Statements about whole runs of the concurrent system, from its empty start. */
module Runs {
  import opened Model
  import opened Authz
  import opened Archive
  import opened Store
  import opened Resolve
  import opened Upload
  import opened Registry
  import opened Concurrent

  lemma EvolvesTransitive(c: Codec, db: Db, db': Db, db'': Db)
    requires Evolves(c, db, db') && Evolves(c, db', db'')
    ensures Evolves(c, db, db'')
  {
  }

  // From any moment of a run to any later one, module and commit rows (with their creator and creation time)
  // stay as they are, blobs keep their digest, and label rows keep their ID and creation time.
  lemma {:induction false} RunEvolves(c: Codec, events: seq<Event>, n: nat)
    requires Lawful(c) && n <= |events|
    ensures Evolves(c, After(c, events[..n]).db, After(c, events).db)
    decreases |events|
  {
    hide Evolves, Happen, SystemOk, Lawful;
    if n == |events| {
      assert events[..n] == events;
      EvolvesReflexive(c, After(c, events).db);
    } else {
      var before := events[..|events| - 1];
      assert before[..n] == events[..n];
      RunEvolves(c, before, n);
      AlwaysOk(c, before);
      EventOk(c, After(c, before), events[|events| - 1]);
      EvolvesTransitive(c, After(c, events[..n]).db, After(c, before).db, After(c, events).db);
    }
  }

  // ---------- what a pull answers ----------

  // A pull that has finished in a reachable state has answered with a commit of the module its reference
  // names and with an accepted file list whose archive has the commit's ID as its digest, or has not found
  // what it looked for, or was refused, or met a failing backend call: it never met a row that names
  // something missing.
  lemma PullsAreSafe(c: Codec, events: seq<Event>, pid: nat)
    requires Lawful(c) && pid in After(c, events).procs
    requires After(c, events).procs[pid].Pull? && After(c, events).procs[pid].pullPc.Finished?
    ensures var s := After(c, events);
      match s.procs[pid].pullPc.answer
      case DanglingLabel => false
      case DanglingCommit => false
      case BadArchive => false
      case Answered(m, commit, files) =>
        && RefersTo(s.db, s.procs[pid].ref, m) && Stored(s.db, m, commit) && commit.moduleId == m.id
        && Acceptable(files) && c.encode(files).Some? && c.hash(c.encode(files).value) == commit.id
      case _ => true
  {
    AlwaysOk(c, events);
    var s := After(c, events);
    hide After, Lawful, Intact, Acceptable, NoCommitFromTheFuture;
    assert ProcOk(c, s.db, s.clock, s.procs[pid]);
    var answer := s.procs[pid].pullPc.answer;
    if answer.Answered? { RowIds(c, s, (answer.m.id, answer.commit.id)); }
  }

  /** The label a reference falls back to, or asks for. */
  function WantedLabel(ref: ResourceRef): string
    requires ref.ByName?
  {
    if ref.child.LabelName? && ref.child.name != "" then ref.child.name
    else if ref.child.RefName? && ref.child.ref != "" then ref.child.ref
    else "main"
  }

  /** The event is a pull's read of a label, which names the commit at that moment. */
  ghost predicate ReadsLabel(s: System, e: Event, pid: nat, k: (string, string), commitId: string) {
    && e.Step? && e.pid == pid && !e.fails
    && pid in s.procs && s.procs[pid].Pull? && s.procs[pid].pullPc.LabelRead?
    && k == (s.procs[pid].pullPc.m.id, s.procs[pid].pullPc.name)
    && k in s.db.labels && s.db.labels[k].commitId == commitId
  }

  /** The pull has read the label, and when it did the label named the commit. */
  ghost predicate ReadFrom(c: Codec, events: seq<Event>, pid: nat, k: (string, string), commitId: string) {
    exists n :: 0 <= n < |events| && ReadsLabel(After(c, events[..n]), events[n], pid, k, commitId)
  }

  /** A pull's commit is the one its reference spells out, or the one the wanted label named when it was read. */
  ghost predicate Sourced(c: Codec, events: seq<Event>, pid: nat, ref: ResourceRef, m: Module, commitId: string) {
    ref.ByName? &&
    (ref.child == RefName(commitId) || ReadFrom(c, events, pid, (m.id, WantedLabel(ref)), commitId))
  }

  ghost predicate PullSourced(c: Codec, events: seq<Event>, pid: nat, p: Proc) {
    p.Pull? ==>
      match p.pullPc
      case RefRead(_, ref) => p.ref.ByName? && p.ref.child == RefName(ref) && WantedLabel(p.ref) == ref
      case LabelRead(_, name, _) => p.ref.ByName? && name == WantedLabel(p.ref)
      case CommitRead(m, _, commitId) => Sourced(c, events, pid, p.ref, m, commitId)
      case BlobRead(m, commit) => Sourced(c, events, pid, p.ref, m, commit.id)
      case Finished(Answered(m, commit, _)) => Sourced(c, events, pid, p.ref, m, commit.id)
      case _ => true
  }

  lemma ReadFromStays(c: Codec, events: seq<Event>, e: Event, pid: nat, k: (string, string), commitId: string)
    requires ReadFrom(c, events, pid, k, commitId)
    ensures ReadFrom(c, events + [e], pid, k, commitId)
  {
    hide ReadsLabel;
    var n :| 0 <= n < |events| && ReadsLabel(After(c, events[..n]), events[n], pid, k, commitId);
    assert (events + [e])[..n] == events[..n] && (events + [e])[n] == events[n];
  }

  lemma SourcedStays(c: Codec, events: seq<Event>, e: Event, pid: nat, p: Proc)
    requires PullSourced(c, events, pid, p)
    ensures PullSourced(c, events + [e], pid, p)
  {
    hide ReadFrom, WantedLabel;
    if p.Pull? && p.ref.ByName? {
      forall m: Module, id: string | Sourced(c, events, pid, p.ref, m, id)
        ensures Sourced(c, events + [e], pid, p.ref, m, id)
      {
        if ReadFrom(c, events, pid, (m.id, WantedLabel(p.ref)), id) {
          ReadFromStays(c, events, e, pid, (m.id, WantedLabel(p.ref)), id);
        }
      }
    }
  }

  lemma ReadsNow(c: Codec, events: seq<Event>, e: Event, pid: nat, k: (string, string), commitId: string)
    requires ReadsLabel(After(c, events), e, pid, k, commitId)
    ensures ReadFrom(c, events + [e], pid, k, commitId)
  {
    assert (events + [e])[..|events|] == events;
  }

  lemma RowIds(c: Codec, s: System, k: (string, string))
    requires SystemOk(c, s) && k in s.db.commits
    ensures s.db.commits[k].moduleId == k.0 && s.db.commits[k].id == k.1
  {
    hide LabelOk, BlobOk, ModulesOk, ProcOk;
    assert CommitOk(s.db, k);
  }

  lemma PullStepSourced(c: Codec, events: seq<Event>, e: Event, pid: nat)
    requires Lawful(c) && SystemOk(c, After(c, events)) && pid in After(c, events).procs && e.Step? && e.pid == pid
    requires var p := After(c, events).procs[pid];
      p.Pull? && PullSourced(c, events, pid, p) && PullOk(c, After(c, events).db, p.ref, p.pullPc)
    ensures var s := After(c, events);
      PullSourced(c, events + [e], pid, s.procs[pid].(pullPc := PullNext(c, s, s.procs[pid], e.fails),
                                                      faulted := s.procs[pid].faulted || e.fails))
  {
    hide After, Lawful, Unpack, CanRead, SystemOk, ReadFrom;
    var s := After(c, events);
    var p := s.procs[pid];
    SourcedStays(c, events, e, pid, p);
    if p.pullPc.LabelRead? && p.ref.ByName? {
      var k := (p.pullPc.m.id, p.pullPc.name);
      if !e.fails && k in s.db.labels { ReadsNow(c, events, e, pid, k, s.db.labels[k].commitId); }
    }
    if p.pullPc.RefRead? && (p.pullPc.m.id, p.pullPc.ref) in s.db.commits {
      RowIds(c, s, (p.pullPc.m.id, p.pullPc.ref));
    }
    if p.pullPc.CommitRead? { RowIds(c, s, (p.pullPc.m.id, p.pullPc.commitId)); }
  }

  lemma SourcedStep(c: Codec, before: seq<Event>, e: Event, pid: nat)
    requires Lawful(c) && SystemOk(c, After(c, before)) && pid in After(c, before + [e]).procs
    requires pid in After(c, before).procs ==> PullSourced(c, before, pid, After(c, before).procs[pid])
    ensures PullSourced(c, before + [e], pid, After(c, before + [e]).procs[pid])
  {
    hide Intact, Lawful, ProcStep, PullNext, NoCommitFromTheFuture, ReadFrom;
    assert (before + [e])[..|before|] == before;
    var s := After(c, before);
    if pid in s.procs {
      if e.Step? && e.pid == pid { KindStays(c, s, s.procs[pid], e.fails, e.uuid); }
      if e.Step? && e.pid == pid && s.procs[pid].Pull? {
        assert ProcOk(c, s.db, s.clock, s.procs[pid]);
        PullStepSourced(c, before, e, pid);
      } else {
        SourcedStays(c, before, e, pid, s.procs[pid]);
      }
    }
  }

  // The commit a pull answers with is the one whose ID the reference spells out, or the one that the wanted label
  // named at the very moment when the pull read it, however writers interleave with its reads.
  lemma {:induction false} AnswersAreSourced(c: Codec, events: seq<Event>, pid: nat)
    requires Lawful(c) && pid in After(c, events).procs
    ensures PullSourced(c, events, pid, After(c, events).procs[pid])
  {
    hide After, SystemOk, PullSourced, Lawful;
    if events == [] {
      NoneAtStart(c);
    } else {
      var before, e := events[..|events| - 1], events[|events| - 1];
      assert events == before + [e];
      AlwaysOk(c, before);
      if pid in After(c, before).procs { AnswersAreSourced(c, before, pid); }
      SourcedStep(c, before, e, pid);
    }
  }

  lemma NoneAtStart(c: Codec)
    ensures After(c, []) == INITIAL && INITIAL.procs == map[]
  {
  }

  // ---------- pinned content ----------

  /** The bytes stored at any moment of a run. */
  ghost function EverStored(c: Codec, events: seq<Event>): set<Bytes> {
    After(c, events).db.blobs.Values + if events == [] then {} else EverStored(c, events[..|events| - 1])
  }

  lemma {:induction false} EverStoredGrows(c: Codec, events: seq<Event>, n: nat)
    requires n <= |events|
    ensures EverStored(c, events[..n]) <= EverStored(c, events)
    decreases |events|
  {
    hide After;
    if n == |events| {
      assert events[..n] == events;
    } else {
      assert events[..|events| - 1][..n] == events[..n];
      EverStoredGrows(c, events[..|events| - 1], n);
    }
  }

  /** The archive of the files a pull has answered with was stored at some moment of the run. */
  ghost predicate AnswerWasStored(c: Codec, events: seq<Event>, p: Proc) {
    p.Pull? && p.pullPc.Finished? && p.pullPc.answer.Answered? ==>
      var archive := c.encode(p.pullPc.answer.files);
      archive.Some? && archive.value in EverStored(c, events)
  }

  lemma AnsweringReadsTheStore(c: Codec, events: seq<Event>, pid: nat, fails: bool)
    requires Lawful(c) && SystemOk(c, After(c, events)) && pid in After(c, events).procs
    requires var p := After(c, events).procs[pid];
      p.Pull? && !p.pullPc.Finished? && PullOk(c, After(c, events).db, p.ref, p.pullPc)
    ensures var s := After(c, events);
      AnswerWasStored(c, events, s.procs[pid].(pullPc := PullNext(c, s, s.procs[pid], fails)))
  {
    hide After, Lawful, Unpack, CanRead, Intact, Acceptable, ProcOk, NoCommitFromTheFuture;
    var s := After(c, events);
    var p := s.procs[pid];
    if p.pullPc.BlobRead? {
      var _ := CommitContent(c, s.db, (p.pullPc.m.id, p.pullPc.commit.id));
      assert s.db.blobs[p.pullPc.commit.storageKey] in s.db.blobs.Values;
    }
  }

  lemma AnswerStoredStep(c: Codec, before: seq<Event>, e: Event, pid: nat)
    requires Lawful(c) && SystemOk(c, After(c, before)) && pid in After(c, before + [e]).procs
    requires pid in After(c, before).procs ==> AnswerWasStored(c, before, After(c, before).procs[pid])
    ensures AnswerWasStored(c, before + [e], After(c, before + [e]).procs[pid])
  {
    hide Intact, Lawful, ProcStep, PullNext, NoCommitFromTheFuture, EverStored;
    assert (before + [e])[..|before|] == before;
    EverStoredGrows(c, before + [e], |before|);
    var s := After(c, before);
    if pid in s.procs && e.Step? && e.pid == pid {
      KindStays(c, s, s.procs[pid], e.fails, e.uuid);
      if s.procs[pid].Pull? {
        assert ProcOk(c, s.db, s.clock, s.procs[pid]);
        if s.procs[pid].pullPc.Finished? {
          FinishedStays(c, s, s.procs[pid], e.fails);
        } else {
          AnsweringReadsTheStore(c, before, pid, e.fails);
        }
      }
    }
  }

  lemma FinishedStays(c: Codec, s: System, p: Proc, fails: bool)
    requires p.Pull? && p.pullPc.Finished?
    ensures PullNext(c, s, p, fails) == p.pullPc
  {
  }

  lemma {:induction false} AnswersWereStored(c: Codec, events: seq<Event>, pid: nat)
    requires Lawful(c) && pid in After(c, events).procs
    ensures AnswerWasStored(c, events, After(c, events).procs[pid])
  {
    hide After, SystemOk, AnswerWasStored, Lawful;
    if events == [] {
      NoneAtStart(c);
    } else {
      var before, e := events[..|events| - 1], events[|events| - 1];
      assert events == before + [e];
      AlwaysOk(c, before);
      if pid in After(c, before).procs { AnswersWereStored(c, before, pid); }
      AnswerStoredStep(c, before, e, pid);
    }
  }

  // As far as two archives do not collide, their digest determines the file list they belong to.
  lemma DigestDeterminesFiles(c: Codec, a: seq<File>, b: seq<File>)
    requires Lawful(c) && c.encode(a).Some? && c.encode(b).Some?
    requires NoCollision(c, {c.encode(a).value, c.encode(b).value})
    requires c.hash(c.encode(a).value) == c.hash(c.encode(b).value)
    ensures a == b
  {
    assert FilesOf(EntriesOf(a)) == a && FilesOf(EntriesOf(b)) == b;
  }

  // Once a commit is stored, a download by its ID returns the same commit row and the same files at every
  // later moment of every run, to anyone who may read at both moments, as long as no two archives stored at
  // the two moments collide.
  lemma PinnedForever(c: Codec, events: seq<Event>, n: nat, userId: string, owner: string, name: string, id: string)
    requires Lawful(c) && n <= |events|
    requires NoCollision(c, After(c, events[..n]).db.blobs.Values + After(c, events).db.blobs.Values)
    requires var db := After(c, events[..n]).db;
      (owner, name) in db.modules && (db.modules[(owner, name)].id, id) in db.commits
    requires var s, s' := After(c, events[..n]), After(c, events);
      && CanRead(s.accounts, userId, s.db.modules[(owner, name)])
      && CanRead(s'.accounts, userId, s.db.modules[(owner, name)])
    ensures var s, s', ref := After(c, events[..n]), After(c, events), ByName(owner, name, RefName(id));
      && DownloadOne(c, s.accounts, s.db, userId, ref, NO_FAULTS).Ok?
      && DownloadOne(c, s'.accounts, s'.db, userId, ref, NO_FAULTS)
           == DownloadOne(c, s.accounts, s.db, userId, ref, NO_FAULTS)
  {
    hide After, Lawful, NoCollision, Evolves, DownloadOne, CanRead, Intact;
    AlwaysOk(c, events[..n]);
    AlwaysOk(c, events);
    RunEvolves(c, events, n);
    var s, s' := After(c, events[..n]), After(c, events);
    PinnedDownload(c, s.accounts, s.db, s'.accounts, s'.db, userId, owner, name, id);
  }

  /** Where a pull of a stored commit ID can be, as long as none of its own calls has failed. */
  ghost predicate OnPin(p: Proc, m: Module, commit: Commit) {
    p.Pull? && !p.faulted ==>
      match p.pullPc
      case ModuleRead => true
      case RefRead(m', ref) => m' == m && ref == commit.id
      case LabelRead(_, _, _) => false
      case CommitRead(_, _, _) => false
      case BlobRead(m', commit') => m' == m && commit' == commit
      case Finished(Answered(m', commit', _)) => m' == m && commit' == commit
      case Finished(answer) => answer == Denied
  }

  lemma OnPinStep(c: Codec, s: System, e: Event, pid: nat, owner: string, name: string, m: Module, commit: Commit)
    requires pid in s.procs && s.procs[pid].Pull? && s.procs[pid].ref == ByName(owner, name, RefName(commit.id))
    requires SystemOk(c, s) && Lawful(c) && commit.id != ""
    requires (owner, name) in s.db.modules && s.db.modules[(owner, name)] == m && Stored(s.db, m, commit)
    requires OnPin(s.procs[pid], m, commit)
    ensures OnPin(Happen(c, s, e).procs[pid], m, commit)
  {
    hide Intact, Lawful, Unpack, NoCommitFromTheFuture, PushStep, MoveStep, Check, BlobOk, Acceptable;
    if e.Step? && e.pid == pid {
      assert ProcOk(c, s.db, s.clock, s.procs[pid]);
      PullStepOk(c, s, s.procs[pid], e.fails);
    }
  }

  // A pull by commit ID that arrives once the commit is stored, and none of whose own backend calls fails,
  // answers with that commit and its one file list or is refused: nothing that others do meanwhile, not even
  // a label of that name, leads it elsewhere.
  lemma {:induction false} PinnedPull(c: Codec, events: seq<Event>, n: nat, pid: nat,
                                      owner: string, name: string, m: Module, commit: Commit)
    requires Lawful(c) && n <= |events| && commit.id != ""
    requires var s := After(c, events[..n]);
      && (owner, name) in s.db.modules && s.db.modules[(owner, name)] == m && Stored(s.db, m, commit)
      && pid !in s.procs
    requires pid in After(c, events).procs
    requires var p := After(c, events).procs[pid]; p.Pull? && p.ref == ByName(owner, name, RefName(commit.id))
    ensures OnPin(After(c, events).procs[pid], m, commit)
    decreases |events|
  {
    assert events[..|events|] == events;
    var before, e := events[..|events| - 1], events[|events| - 1];
    assert before[..n] == events[..n] && After(c, events) == Happen(c, After(c, before), e);
    PinnedPullStep(c, before, e, n, pid, owner, name, m, commit);
    if pid in After(c, before).procs {
      PinnedPull(c, before, n, pid, owner, name, m, commit);
      OnPinStep(c, After(c, before), e, pid, owner, name, m, commit);
    }
  }

  lemma PinnedPullStep(c: Codec, before: seq<Event>, e: Event, n: nat, pid: nat,
                       owner: string, name: string, m: Module, commit: Commit)
    requires Lawful(c) && n <= |before|
    requires var s := After(c, before[..n]);
      (owner, name) in s.db.modules && s.db.modules[(owner, name)] == m && Stored(s.db, m, commit)
    ensures var s := After(c, before);
      && SystemOk(c, s)
      && (owner, name) in s.db.modules && s.db.modules[(owner, name)] == m && Stored(s.db, m, commit)
    ensures var s, s' := After(c, before), Happen(c, After(c, before), e);
      pid in s'.procs && s'.procs[pid].Pull? ==>
        if pid in s.procs then s.procs[pid].Pull? && s.procs[pid].ref == s'.procs[pid].ref
        else OnPin(s'.procs[pid], m, commit)
  {
    hide SystemOk, After, Lawful, ProcStep, PullNext;
    if e.Step? && e.pid in After(c, before).procs {
      KindStays(c, After(c, before), After(c, before).procs[e.pid], e.fails, e.uuid);
    }
    RunEvolves(c, before, n);
    AlwaysOk(c, before);
  }

  // Two pulls that answer with the same commit ID, at any two moments of a run in which no two archives that
  // are ever stored collide, answer with the same files.
  lemma AnswersAgree(c: Codec, events: seq<Event>, n: nat, pid: nat, pid': nat)
    requires Lawful(c) && n <= |events| && NoCollision(c, EverStored(c, events))
    requires pid in After(c, events[..n]).procs && pid' in After(c, events).procs
    requires var p, p' := After(c, events[..n]).procs[pid], After(c, events).procs[pid'];
      && p.Pull? && p.pullPc.Finished? && p.pullPc.answer.Answered?
      && p'.Pull? && p'.pullPc.Finished? && p'.pullPc.answer.Answered?
      && p.pullPc.answer.commit.id == p'.pullPc.answer.commit.id
    ensures var p, p' := After(c, events[..n]).procs[pid], After(c, events).procs[pid'];
      p.pullPc.answer.files == p'.pullPc.answer.files
  {
    hide After, Lawful, EverStored, Acceptable;
    PullsAreSafe(c, events[..n], pid);
    PullsAreSafe(c, events, pid');
    AnswersWereStored(c, events[..n], pid);
    AnswersWereStored(c, events, pid');
    EverStoredGrows(c, events, n);
    DigestDeterminesFiles(c, After(c, events[..n]).procs[pid].pullPc.answer.files,
                          After(c, events).procs[pid'].pullPc.answer.files);
  }

  // ---------- update times ----------

  /** The time that a label write carries which is the request's next call: for a push the time of the commit it
      found, or of the clock before it inserted one; for a label request the clock after its check. */
  function NextStamp(p: Proc, k: (string, string)): Option<Time> {
    match p
    case Push(_, contents, i, Moving(m, _, t, j)) =>
      if i < |contents| && j < |LabelNames(contents[i])| && k == (m.id, LabelNames(contents[i])[j]) then Some(t)
      else None
    case Move(_, values, at, Writing(m, now)) =>
      if at < |values| && k == (m.id, values[at].name) then Some(now) else None
    case _ => None
  }

  // In any state, an event turns a label's update time back exactly when it is the label write of a push or of a
  // label request, does not fail, and carries an earlier time than the row; label rows never go.
  lemma TimeGoesBackExactly(c: Codec, s: System, e: Event, k: (string, string))
    requires k in s.db.labels
    ensures k in Happen(c, s, e).db.labels
    ensures Happen(c, s, e).db.labels[k].updatedAt < s.db.labels[k].updatedAt <==>
      && e.Step? && !e.fails && e.pid in s.procs
      && NextStamp(s.procs[e.pid], k).Some? && NextStamp(s.procs[e.pid], k).value < s.db.labels[k].updatedAt
  {
    hide Check, LabelNames, PushStep, MoveStep, PullNext, NextStamp, Fresh;
    if e.Step? && e.pid in s.procs {
      var p := s.procs[e.pid];
      if p.Push? { PushTimeGoesBack(c, s, p, e.fails, e.uuid, k); }
      if p.Move? { MoveTimeGoesBack(s, p, e.fails, e.uuid, k); }
      if !p.Push? && !p.Move? { OthersStampNothing(p, k); }
    }
  }

  lemma PushTimeGoesBack(c: Codec, s: System, p: Proc, fails: bool, uuid: string, k: (string, string))
    requires p.Push? && k in s.db.labels
    ensures var db' := PushStep(c, s, p, fails, uuid).0;
      && k in db'.labels
      && (db'.labels[k].updatedAt < s.db.labels[k].updatedAt <==>
            !fails && NextStamp(p, k).Some? && NextStamp(p, k).value < s.db.labels[k].updatedAt)
  {
    hide Check, LabelNames, StorageKey;
  }

  lemma MoveTimeGoesBack(s: System, p: Proc, fails: bool, uuid: string, k: (string, string))
    requires p.Move? && k in s.db.labels
    ensures var db' := MoveStep(s, p, fails, uuid).0;
      && k in db'.labels
      && (db'.labels[k].updatedAt < s.db.labels[k].updatedAt <==>
            !fails && NextStamp(p, k).Some? && NextStamp(p, k).value < s.db.labels[k].updatedAt)
  {
    hide CanAdmin;
  }

  lemma OthersStampNothing(p: Proc, k: (string, string))
    requires !p.Push? && !p.Move?
    ensures NextStamp(p, k) == None
  {
  }

  // ---------- commits are counted by content ----------

  /** The event stores a commit: a push whose insertion does not fail and meets no such row. */
  predicate Inserts(c: Codec, s: System, e: Event, k: (string, string)) {
    && e.Step? && e.pid in s.procs && !e.fails
    && s.procs[e.pid].Push? && s.procs[e.pid].pushPc.Inserting?
    && k == (s.procs[e.pid].pushPc.m.id, c.hash(s.procs[e.pid].pushPc.data))
    && k !in s.db.commits
  }

  /** How often a run stores a commit of this module and ID. */
  function Insertions(c: Codec, events: seq<Event>, k: (string, string)): nat {
    if events == [] then 0
    else
      var before := events[..|events| - 1];
      Insertions(c, before, k) + if Inserts(c, After(c, before), events[|events| - 1], k) then 1 else 0
  }

  lemma CommitsChange(c: Codec, s: System, e: Event, k: (string, string))
    ensures k in Happen(c, s, e).db.commits <==> k in s.db.commits || Inserts(c, s, e, k)
  {
    hide Check, LabelNames, PullNext, Fresh;
  }

  // In every reachable state, also after identical pushes that ran at once, a module has a commit row of an ID
  // exactly when a push stored it, and then exactly one push did.
  lemma {:induction false} CommitsAreStoredOnce(c: Codec, events: seq<Event>, k: (string, string))
    ensures Insertions(c, events, k) == if k in After(c, events).db.commits then 1 else 0
  {
    if events != [] {
      var before := events[..|events| - 1];
      CommitsAreStoredOnce(c, before, k);
      CommitsChange(c, After(c, before), events[|events| - 1], k);
    }
  }

  // ---------- a push that runs alone ----------

  function Rank(pc: PushPc): nat {
    match pc
    case Checking => 5
    case Putting(_, _) => 4
    case Looking(_, _) => 3
    case Inserting(_, _, _) => 2
    case Moving(_, _, _, _) => 1
  }

  function LabelsLeft(p: Proc): nat
    requires p.Push? && (p.pushPc.Moving? ==> p.i < |p.contents|)
  {
    if p.pushPc.Moving? && p.pushPc.j < |LabelNames(p.contents[p.i])|
    then |LabelNames(p.contents[p.i])| - p.pushPc.j else 0
  }

  /** The tables after a push has been stepped to its end with no failing call and nothing in between. */
  function RunAlone(c: Codec, s: System, p: Proc, uuid: (nat, nat) -> string): Db
    requires p.Push? && p.i <= |p.contents| && (p.pushPc.Moving? ==> p.i < |p.contents|)
    requires p.pushPc.Putting? || p.pushPc.Looking? || p.pushPc.Inserting? ==> p.i < |p.contents|
    decreases |p.contents| - p.i, Rank(p.pushPc), LabelsLeft(p)
  {
    var (db, p') := PushStep(c, s, p, false, uuid(p.i, if p.pushPc.Moving? then p.pushPc.j else 0));
    if p'.Stopped? then db else RunAlone(c, s.(db := db), p', uuid)
  }

  lemma LabelAlone(c: Codec, s: System, p: Proc, uuid: (nat, nat) -> string, env: Env)
    requires p.Push? && p.i < |p.contents| && p.pushPc.Moving? && p.pushPc.j < |LabelNames(p.contents[p.i])|
    requires env == Env(env.fails, env.now, uuid)
    ensures var Moving(m, data, t, j) := p.pushPc;
      var ws := LabelWrites(LabelNames(p.contents[p.i]), m.id, c.hash(data), t, UuidsOf(env, p.i));
      RunAlone(c, s, p, uuid)
        == RunAlone(c, s.(db := Apply(s.db, ws[j])), p.(pushPc := Moving(m, data, t, j + 1)), uuid)
  {
    hide Apply, LabelNames;
  }

  lemma LabelsDone(c: Codec, s: System, p: Proc, uuid: (nat, nat) -> string)
    requires p.Push? && p.i < |p.contents| && p.pushPc.Moving? && p.pushPc.j == |LabelNames(p.contents[p.i])|
    ensures RunAlone(c, s, p, uuid) == RunAlone(c, s, p.(i := p.i + 1, pushPc := Checking), uuid)
  {
    hide Apply, LabelNames;
  }

  lemma {:induction false} LabelsAlone(c: Codec, s: System, p: Proc, uuid: (nat, nat) -> string, env: Env)
    requires p.Push? && p.i < |p.contents| && p.pushPc.Moving? && p.pushPc.j <= |LabelNames(p.contents[p.i])|
    requires env == Env(env.fails, env.now, uuid)
    ensures var Moving(m, data, t, j) := p.pushPc;
      var ws := LabelWrites(LabelNames(p.contents[p.i]), m.id, c.hash(data), t, UuidsOf(env, p.i));
      RunAlone(c, s, p, uuid)
        == RunAlone(c, s.(db := ApplyAll(s.db, ws[j..])), p.(i := p.i + 1, pushPc := Checking), uuid)
    decreases LabelsLeft(p)
  {
    hide Apply, ApplyAll, LabelNames, LabelWrites, RunAlone, UuidsOf;
    var Moving(m, data, t, j) := p.pushPc;
    var ws := LabelWrites(LabelNames(p.contents[p.i]), m.id, c.hash(data), t, UuidsOf(env, p.i));
    if j < |ws| {
      LabelAlone(c, s, p, uuid, env);
      LabelsAlone(c, s.(db := Apply(s.db, ws[j])), p.(pushPc := Moving(m, data, t, j + 1)), uuid, env);
      FirstThenRest(s.db, ws, j);
    } else {
      NothingDone(s.db);
      assert ws[j..] == [];
      LabelsDone(c, s, p, uuid);
    }
  }

  lemma FirstThenRest(db: Db, ws: seq<Write>, j: nat)
    requires j < |ws|
    ensures ApplyAll(db, ws[j..]) == ApplyAll(Apply(db, ws[j]), ws[j + 1..])
  {
    assert ws[j..] == [ws[j]] + ws[j + 1..];
    ApplyAllConcat(db, [ws[j]], ws[j + 1..]);
    OneMore(db, [], ws[j]);
  }

  lemma ContentAlone(c: Codec, s: System, p: Proc, uuid: (nat, nat) -> string, env: Env)
    requires p.Push? && p.i < |p.contents| && p.pushPc.Checking?
    requires Check(c, s.accounts, s.db.modules, p.caller, p.contents[p.i]).Ok?
    requires env == Env(env.fails, env.now, uuid) && env.now(p.i) == s.clock
    ensures var db1 := AfterContent(c, s.accounts, s.db, p.caller, p.contents[p.i], p.i, env);
      RunAlone(c, s, p, uuid) == RunAlone(c, s.(db := db1), p.(i := p.i + 1), uuid)
  {
    var (m, data) := Check(c, s.accounts, s.db.modules, p.caller, p.contents[p.i]).value;
    var id, names := c.hash(data), LabelNames(p.contents[p.i]);
    var t := StampTime(s.db, (m.id, id), s.clock);
    var stored := [PutBlob(StorageKey(m.id, id), data)] + CommitWrites(s.db, m.id, id, p.caller, s.clock);
    var ws := LabelWrites(names, m.id, id, t, UuidsOf(env, p.i));
    BlobAndCommitEffect(c, s.db, m.id, data, p.caller, s.clock);
    ApplyAllConcat(s.db, stored, ws);
    StoredAlone(c, s, p, m, data, uuid);
    var db1 := WithCommit(c, s.db, m.id, data, p.caller, s.clock);
    LabelsAlone(c, s.(db := db1), p.(pushPc := Moving(m, data, t, 0)), uuid, env);
    assert ws[0..] == ws;
  }

  lemma StoredAlone(c: Codec, s: System, p: Proc, m: Module, data: Bytes, uuid: (nat, nat) -> string)
    requires p.Push? && p.i < |p.contents| && p.pushPc.Checking?
    requires Check(c, s.accounts, s.db.modules, p.caller, p.contents[p.i]) == Ok((m, data))
    ensures var t := StampTime(s.db, (m.id, c.hash(data)), s.clock);
      var db1 := WithCommit(c, s.db, m.id, data, p.caller, s.clock);
      RunAlone(c, s, p, uuid) == RunAlone(c, s.(db := db1), p.(pushPc := Moving(m, data, t, 0)), uuid)
  {
    hide Check, LabelNames;
    var id := c.hash(data);
    var db1 := Apply(s.db, PutBlob(StorageKey(m.id, id), data));
    var s1 := s.(db := db1);
    assert RunAlone(c, s, p, uuid) == RunAlone(c, s, p.(pushPc := Putting(m, data)), uuid);
    assert RunAlone(c, s, p.(pushPc := Putting(m, data)), uuid)
      == RunAlone(c, s1, p.(pushPc := Looking(m, data)), uuid);
    if (m.id, id) !in s.db.commits {
      assert RunAlone(c, s1, p.(pushPc := Looking(m, data)), uuid)
        == RunAlone(c, s1, p.(pushPc := Inserting(m, data, s.clock)), uuid);
    }
  }

  // A push that nothing interrupts leaves exactly the tables that the sequential handler's plan leads to: the
  // two descriptions of a push agree.
  lemma {:induction false} LoneRunIsThePlan(c: Codec, s: System, p: Proc, uuid: (nat, nat) -> string, env: Env)
    requires p.Push? && p.i <= |p.contents| && p.pushPc.Checking?
    requires env == Env(env.fails, env.now, uuid) && forall i :: env.now(i) == s.clock
    ensures RunAlone(c, s, p, uuid) == ApplyAll(s.db, Plan(c, s.accounts, s.db, p.caller, p.contents, p.i, env))
    decreases |p.contents| - p.i
  {
    hide Check, ApplyAll, Plan, ContentPlan, LabelNames, AfterContent;
    PlanEnd(c, s.accounts, s.db, p.caller, p.contents, p.i, env);
    if p.i < |p.contents| && Check(c, s.accounts, s.db.modules, p.caller, p.contents[p.i]).Ok? {
      ContentAlone(c, s, p, uuid, env);
      PlanStep(c, s.accounts, s.db, p.caller, p.contents, p.i, env);
      var db1 := AfterContent(c, s.accounts, s.db, p.caller, p.contents[p.i], p.i, env);
      LoneRunIsThePlan(c, s.(db := db1), p.(i := p.i + 1), uuid, env);
    }
  }

  // ---------- a label request, and a pull, that run alone ----------

  function MoveRank(pc: MovePc): nat {
    match pc
    case Authorizing => 3
    case Verifying(_) => 2
    case Writing(_, _) => 1
  }

  /** The tables after a label request has been stepped to its end with no failing call and nothing in between. */
  function MoveAlone(c: Codec, s: System, p: Proc, uuid: nat -> string): Db
    requires p.Move? && p.at <= |p.values|
    decreases |p.values| - p.at, MoveRank(p.movePc)
  {
    var (db, p') := MoveStep(s, p, false, uuid(p.at));
    if p'.Stopped? then db else MoveAlone(c, s.(db := db), p', uuid)
  }

  lemma EntryAlone(c: Codec, s: System, p: Proc, uuid: nat -> string)
    requires p.Move? && p.at < |p.values| && p.movePc.Authorizing?
    ensures var r := CheckLabel(s.accounts, s.db, p.mover, p.values[p.at], s.clock, uuid(p.at));
      MoveAlone(c, s, p, uuid) ==
        if r.Err? then s.db
        else MoveAlone(c, s.(db := Apply(s.db, UpsertLabel(r.value))), p.(at := p.at + 1), uuid)
  {
    hide Apply, CanAdmin;
    var v := p.values[p.at];
    if v.moduleRef.Some? && v.moduleRef.value in s.db.modules {
      var m := s.db.modules[v.moduleRef.value];
      if CanAdmin(s.accounts, p.mover, m) {
        assert MoveAlone(c, s, p, uuid) == MoveAlone(c, s, p.(movePc := Verifying(m)), uuid);
        if (m.id, v.commitId) in s.db.commits {
          assert MoveAlone(c, s, p.(movePc := Verifying(m)), uuid)
            == MoveAlone(c, s, p.(movePc := Writing(m, s.clock)), uuid);
        }
      }
    }
  }

  lemma LabelPlanIgnoresLabels(a: Accounts, db: Db, labels: map<(string, string), Label>, caller: string,
                               values: seq<LabelValue>, i: nat, env: Env)
    requires i <= |values|
    ensures LabelPlan(a, db.(labels := labels), caller, values, i, env) == LabelPlan(a, db, caller, values, i, env)
    decreases |values| - i
  {
    if i < |values| {
      CheckIgnoresLabels(a, db, labels, caller, values[i], env.now(i), env.uuid(i, 0));
      LabelPlanIgnoresLabels(a, db, labels, caller, values, i + 1, env);
    }
  }

  lemma NoEntryAlone(c: Codec, s: System, p: Proc, uuid: nat -> string)
    requires p.Move? && p.at <= |p.values|
    ensures p.at == |p.values| ==> MoveAlone(c, s, p, uuid) == s.db
  {
  }

  lemma OnlyLabels(db: Db, l: Label)
    ensures Apply(db, UpsertLabel(l)) == db.(labels := Apply(db, UpsertLabel(l)).labels)
  {
  }

  // A label request that nothing interrupts leaves exactly the tables that the sequential handler's plan leads
  // to.
  lemma {:induction false} LoneMoveIsThePlan(c: Codec, s: System, p: Proc, uuid: nat -> string, env: Env)
    requires p.Move? && p.at <= |p.values| && p.movePc.Authorizing?
    requires forall i :: env.now(i) == s.clock && env.uuid(i, 0) == uuid(i)
    ensures MoveAlone(c, s, p, uuid) == ApplyAll(s.db, LabelPlan(s.accounts, s.db, p.mover, p.values, p.at, env))
    decreases |p.values| - p.at
  {
    hide CheckLabel, ApplyAll, Apply, MoveAlone;
    NothingDone(s.db);
    NoEntryAlone(c, s, p, uuid);
    if p.at < |p.values| {
      EntryAlone(c, s, p, uuid);
      var r := CheckLabel(s.accounts, s.db, p.mover, p.values[p.at], s.clock, uuid(p.at));
      if r.Ok? {
        var w := UpsertLabel(r.value);
        var db1 := Apply(s.db, w);
        LoneMoveIsThePlan(c, s.(db := db1), p.(at := p.at + 1), uuid, env);
        OnlyLabels(s.db, r.value);
        LabelPlanIgnoresLabels(s.accounts, s.db, db1.labels, p.mover, p.values, p.at + 1, env);
        var plan := LabelPlan(s.accounts, s.db, p.mover, p.values, p.at, env);
        assert plan[0..] == plan && plan[0] == w;
        assert plan[1..] == LabelPlan(s.accounts, s.db, p.mover, p.values, p.at + 1, env);
        FirstThenRest(s.db, plan, 0);
      }
    }
  }

  /** Whether the call that the pull makes next fails. */
  function FaultOf(pc: PullPc, f: ReadFaults): bool {
    match pc
    case ModuleRead => f.moduleRead
    case RefRead(_, _) => f.refRead
    case LabelRead(_, _, _) => f.labelRead
    case CommitRead(_, _, _) => f.commitRead
    case BlobRead(_, _) => f.blobRead
    case Finished(_) => false
  }

  /** Where a pull ends that is stepped to its end with nothing in between, its calls failing as given. */
  function PullAlone(c: Codec, s: System, p: Proc, f: ReadFaults): Answer
    requires p.Pull?
    decreases match p.pullPc
      case ModuleRead => 5
      case RefRead(_, _) => 4
      case LabelRead(_, _, _) => 3
      case CommitRead(_, _, _) => 2
      case BlobRead(_, _) => 1
      case Finished(_) => 0
  {
    if p.pullPc.Finished? then p.pullPc.answer
    else PullAlone(c, s, p.(pullPc := PullNext(c, s, p, FaultOf(p.pullPc, f))), f)
  }

  /** What the caller is told. */
  function Told(answer: Answer): Result<(Commit, seq<File>)> {
    match answer
    case Answered(_, commit, files) => Ok((commit, files))
    case DanglingCommit => Err(Internal)
    case BadArchive => Err(Internal)
    case StoreFailed => Err(Internal)
    case _ => Err(NotFound)
  }

  lemma PullStepAlone(c: Codec, s: System, p: Proc, f: ReadFaults)
    requires p.Pull?
    ensures PullAlone(c, s, p, f) ==
      if p.pullPc.Finished? then p.pullPc.answer
      else PullAlone(c, s, p.(pullPc := PullNext(c, s, p, FaultOf(p.pullPc, f))), f)
  {
    hide PullNext;
  }

  /** What is delivered of a commit that has been found. */
  function Delivered(c: Codec, s: System, userId: string, m: Module, commit: Commit, f: ReadFaults)
    : Result<(Commit, seq<File>)>
  {
    if !CanRead(s.accounts, userId, m) then Err(NotFound)
    else if f.blobRead || commit.storageKey !in s.db.blobs then Err(Internal)
    else match Unpack(c, s.db.blobs[commit.storageKey])
      case None => Err(Internal)
      case Some(files) => Ok((commit, files))
  }

  lemma LabelReadAlone(c: Codec, s: System, p: Proc, f: ReadFaults)
    requires p.Pull? && p.pullPc.LabelRead?
    ensures var LabelRead(m, name, isDefault) := p.pullPc;
      match ViaLabel(s.db, m, name, f)
      case Unresolved => Told(PullAlone(c, s, p, f)) == Err(NotFound)
      case Resolved(m', commit) =>
        m' == m && commit.Some? && PullAlone(c, s, p, f) == PullAlone(c, s, p.(pullPc := BlobRead(m, commit.value)), f)
  {
    hide Unpack, CanRead, PullAlone;
    var q := p.(pullPc := PullNext(c, s, p, FaultOf(p.pullPc, f)));
    PullStepAlone(c, s, p, f);
    PullStepAlone(c, s, q, f);
    PullStepAlone(c, s, q.(pullPc := PullNext(c, s, q, FaultOf(q.pullPc, f))), f);
  }

  lemma BlobReadAlone(c: Codec, s: System, p: Proc, f: ReadFaults)
    requires p.Pull? && p.pullPc.BlobRead?
    ensures var BlobRead(m, commit) := p.pullPc;
      Told(PullAlone(c, s, p, f)) == Delivered(c, s, p.userId, m, commit, f)
  {
    hide Unpack, CanRead;
  }

  // A pull that nothing interrupts answers what the sequential download answers, whichever of its calls fail.
  lemma LonePullIsTheDownload(c: Codec, s: System, p: Proc, f: ReadFaults)
    requires p.Pull? && p.pullPc.ModuleRead?
    ensures Told(PullAlone(c, s, p, f)) == DownloadOne(c, s.accounts, s.db, p.userId, p.ref, f)
  {
    hide Unpack, CanRead, Told, PullAlone;
    var next := p.(pullPc := PullNext(c, s, p, f.moduleRead));
    PullStepAlone(c, s, p, f);
    if next.pullPc.RefRead? {
      var found := next.(pullPc := PullNext(c, s, next, f.refRead));
      PullStepAlone(c, s, next, f);
      FinishPull(c, s, found, f);
    } else {
      FinishPull(c, s, next, f);
    }
  }

  lemma FinishPull(c: Codec, s: System, p: Proc, f: ReadFaults)
    requires p.Pull?
    ensures p.pullPc.Finished? && p.pullPc.answer in {Unresolvable, LookupFailed} ==>
      Told(PullAlone(c, s, p, f)) == Err(NotFound)
    ensures p.pullPc.BlobRead? ==>
      var BlobRead(m, commit) := p.pullPc;
      Told(PullAlone(c, s, p, f)) == Delivered(c, s, p.userId, m, commit, f)
    ensures p.pullPc.LabelRead? ==>
      var LabelRead(m, name, isDefault) := p.pullPc;
      match ViaLabel(s.db, m, name, f)
      case Unresolved => Told(PullAlone(c, s, p, f)) == Err(NotFound)
      case Resolved(m', commit) =>
        m' == m && commit.Some?
        && Told(PullAlone(c, s, p, f)) == Delivered(c, s, p.userId, m, commit.value, f)
  {
    hide Unpack, CanRead, PullNext, ViaLabel;
    if p.pullPc.LabelRead? {
      LabelReadAlone(c, s, p, f);
      var LabelRead(m, name, _) := p.pullPc;
      var r := ViaLabel(s.db, m, name, f);
      if r.Resolved? { BlobReadAlone(c, s, p.(pullPc := BlobRead(m, r.commit.value)), f); }
    } else if p.pullPc.BlobRead? {
      BlobReadAlone(c, s, p, f);
    }
  }
}
