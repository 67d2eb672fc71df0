/** From a reference to a commit, and from a commit to its files. Reads only. */
module Resolve {
  import opened Model
  import opened Authz
  import opened Archive
  import opened Store

  datatype Child = NoChild | LabelName(name: string) | RefName(ref: string)
  datatype ResourceRef = NoRef | ById(id: string) | ByName(owner: string, moduleName: string, child: Child)

  /** Which of the reads of one resolve-and-download fails for a reason other than a missing row. */
  datatype ReadFaults = ReadFaults(moduleRead: bool, refRead: bool, labelRead: bool, commitRead: bool, blobRead: bool)

  const NO_FAULTS: ReadFaults := ReadFaults(false, false, false, false, false)

  datatype Resolution = Unresolved | Resolved(m: Module, commit: Option<Commit>)

  function ViaLabel(db: Db, m: Module, name: string, f: ReadFaults): Resolution {
    if f.labelRead || (m.id, name) !in db.labels then Unresolved
    else
      var k := (m.id, db.labels[(m.id, name)].commitId);
      if f.commitRead || k !in db.commits then Unresolved else Resolved(m, Some(db.commits[k]))
  }

  /** A "ref" is tried as a commit ID first and as a label name when that read finds nothing or fails. A module
      that has no default label resolves to no commit. */
  function ResolveRef(db: Db, ref: ResourceRef, f: ReadFaults): Resolution {
    match ref
    case NoRef => Unresolved
    case ById(_) => Unresolved
    case ByName(owner, name, child) =>
      if f.moduleRead || (owner, name) !in db.modules then Unresolved
      else
        var m := db.modules[(owner, name)];
        if child.LabelName? && child.name != "" then ViaLabel(db, m, child.name, f)
        else if child.RefName? && child.ref != "" then
          if !f.refRead && (m.id, child.ref) in db.commits then Resolved(m, Some(db.commits[(m.id, child.ref)]))
          else ViaLabel(db, m, child.ref, f)
        else if !f.labelRead && (m.id, "main") !in db.labels then Resolved(m, None)
        else ViaLabel(db, m, "main", f)
  }

  function DownloadOne(c: Codec, a: Accounts, db: Db, userId: string, ref: ResourceRef, f: ReadFaults)
    : Result<(Commit, seq<File>)>
  {
    match ResolveRef(db, ref, f)
    case Unresolved => Err(NotFound)
    case Resolved(_, None) => Err(NotFound)
    case Resolved(m, Some(commit)) =>
      if !CanRead(a, userId, m) then Err(NotFound)
      else if f.blobRead || commit.storageKey !in db.blobs then Err(Internal)
      else match Unpack(c, db.blobs[commit.storageKey])
        case None => Err(Internal)
        case Some(files) => Ok((commit, files))
  }

  /** The reference stands for the commit of this ID: it names a module, and either a label that points to the commit,
      or the commit itself, or, where its text is no stored commit's ID, the label of that name. With no child or an
      empty one it stands for the label "main". */
  predicate Meant(db: Db, ref: ResourceRef, id: string) {
    && ref.ByName? && (ref.owner, ref.moduleName) in db.modules
    && var moduleId := db.modules[(ref.owner, ref.moduleName)].id;
       && (moduleId, id) in db.commits
       && match ref.child
          case NoChild => PointsTo(db, (moduleId, "main"), id)
          case LabelName(name) => PointsTo(db, (moduleId, if name == "" then "main" else name), id)
          case RefName(text) =>
            if text == "" then PointsTo(db, (moduleId, "main"), id)
            else text == id || ((moduleId, text) !in db.commits && PointsTo(db, (moduleId, text), id))
  }

  predicate PointsTo(db: Db, k: (string, string), id: string) {
    k in db.labels && db.labels[k].commitId == id
  }

  // In intact tables, and with no failing read, a reference resolves to the commit it stands for, and to none exactly
  // where it stands for none.
  lemma ResolveExact(c: Codec, db: Db, ref: ResourceRef)
    requires Intact(c, db)
    ensures var r := ResolveRef(db, ref, NO_FAULTS);
      && (forall id :: Meant(db, ref, id) ==>
            var m := db.modules[(ref.owner, ref.moduleName)]; r == Resolved(m, Some(db.commits[(m.id, id)])))
      && ((exists id :: Meant(db, ref, id)) <==> r.Resolved? && r.commit.Some?)
      && (r.Resolved? && r.commit.Some? ==> Meant(db, ref, r.commit.value.id))
  {
    hide Intact;
    if ref.ByName? && (ref.owner, ref.moduleName) in db.modules {
      var m := db.modules[(ref.owner, ref.moduleName)];
      var name := if ref.child.LabelName? && ref.child.name != "" then ref.child.name
                  else if ref.child.RefName? && ref.child.ref != "" then ref.child.ref else "main";
      if (m.id, name) in db.labels {
        LabelTarget(c, db, (m.id, name));
        CommitIds(c, db, (m.id, db.labels[(m.id, name)].commitId));
      }
      if (m.id, name) in db.commits { CommitIds(c, db, (m.id, name)); }
      var r := ResolveRef(db, ref, NO_FAULTS);
      if r.Resolved? && r.commit.Some? { assert Meant(db, ref, r.commit.value.id); }
    }
  }

  lemma CommitIds(c: Codec, db: Db, k: (string, string))
    requires Intact(c, db) && k in db.commits
    ensures db.commits[k].id == k.1 && db.commits[k].moduleId == k.0
  {
    hide BlobOk, LabelOk, ModulesOk;
    assert CommitOk(db, k);
  }

  // In intact tables, and with no failing read, a download succeeds exactly when its reference stands for a commit and
  // the caller may read the module: anyone if it is public, else the user who owns it or the members of the org that
  // does. It returns that commit's row, and the files of the archive stored under its key.
  lemma DownloadExact(c: Codec, a: Accounts, db: Db, userId: string, ref: ResourceRef)
    requires Lawful(c) && Intact(c, db)
    ensures var r := DownloadOne(c, a, db, userId, ref, NO_FAULTS);
      && (r.Ok? <==>
            && (exists id :: Meant(db, ref, id))
            && Readable(a, userId, db.modules[(ref.owner, ref.moduleName)]))
      && (r.Err? ==> r.error == NotFound)
      && (r.Ok? ==>
            var (commit, files) := r.value;
            && Meant(db, ref, commit.id)
            && commit == db.commits[(db.modules[(ref.owner, ref.moduleName)].id, commit.id)]
            && commit.storageKey in db.blobs && c.encode(files) == Some(db.blobs[commit.storageKey]))
  {
    hide Lawful, Intact, ResolveRef, Meant, Acceptable, Unpack, CanRead, Readable;
    ResolveExact(c, db, ref);
    var res := ResolveRef(db, ref, NO_FAULTS);
    if res.Resolved? && res.commit.Some? {
      MeantNames(db, ref, res.commit.value.id);
      RightsFromTables(a, userId, res.m);
      var files := CommitContent(c, db, (res.m.id, res.commit.value.id));
    }
  }

  lemma MeantNames(db: Db, ref: ResourceRef, id: string)
    requires Meant(db, ref, id)
    ensures ref.ByName? && (ref.owner, ref.moduleName) in db.modules
    ensures (db.modules[(ref.owner, ref.moduleName)].id, id) in db.commits
  {
  }

  // A label reference to a module that exists resolves exactly when the label exists, and then to its commit.
  lemma LabelRefExact(c: Codec, db: Db, owner: string, name: string, l: string)
    requires Intact(c, db) && l != "" && (owner, name) in db.modules
    ensures var m, r := db.modules[(owner, name)], ResolveRef(db, ByName(owner, name, LabelName(l)), NO_FAULTS);
      if (m.id, l) !in db.labels then r == Unresolved
      else (m.id, db.labels[(m.id, l)].commitId) in db.commits
           && r == Resolved(m, Some(db.commits[(m.id, db.labels[(m.id, l)].commitId)]))
  {
    hide Intact;
    var m := db.modules[(owner, name)];
    if (m.id, l) in db.labels { LabelTarget(c, db, (m.id, l)); }
  }

  // A "ref" that is no stored commit's ID resolves as the label of that name does.
  lemma RefLabelExact(c: Codec, db: Db, owner: string, name: string, l: string)
    requires Intact(c, db) && l != "" && (owner, name) in db.modules
    requires (db.modules[(owner, name)].id, l) !in db.commits
    ensures var m, r := db.modules[(owner, name)], ResolveRef(db, ByName(owner, name, RefName(l)), NO_FAULTS);
      if (m.id, l) !in db.labels then r == Unresolved
      else (m.id, db.labels[(m.id, l)].commitId) in db.commits
           && r == Resolved(m, Some(db.commits[(m.id, db.labels[(m.id, l)].commitId)]))
  {
    hide Intact;
    var m := db.modules[(owner, name)];
    if (m.id, l) in db.labels { LabelTarget(c, db, (m.id, l)); }
  }

  lemma ResolvesToStored(db: Db, ref: ResourceRef, f: ReadFaults) returns (k: (string, string))
    requires ResolveRef(db, ref, f).Resolved? && ResolveRef(db, ref, f).commit.Some?
    ensures k in db.commits && db.commits[k] == ResolveRef(db, ref, f).commit.value
    ensures k.0 == ResolveRef(db, ref, f).m.id
  {
    var m := ResolveRef(db, ref, f).m;
    if ref.child.RefName? && ref.child.ref != "" && !f.refRead && (m.id, ref.child.ref) in db.commits {
      k := (m.id, ref.child.ref);
    } else {
      var l := if ref.child.LabelName? && ref.child.name != "" then ref.child.name
               else if ref.child.RefName? && ref.child.ref != "" then ref.child.ref else "main";
      k := (m.id, db.labels[(m.id, l)].commitId);
    }
  }

  // With intact tables and no failing read, a download fails only for want of a reference, a commit or read
  // access: never because something a row names is missing. What it returns is an accepted file list whose
  // archive has the commit's ID as its digest.
  lemma NoDanglingReads(c: Codec, a: Accounts, db: Db, userId: string, ref: ResourceRef)
    requires Lawful(c) && Intact(c, db)
    ensures var r := DownloadOne(c, a, db, userId, ref, NO_FAULTS);
      && (r.Err? ==> r.error == NotFound)
      && (r.Ok? ==>
            && c.encode(r.value.1).Some? && c.hash(c.encode(r.value.1).value) == r.value.0.id
            && Acceptable(r.value.1))
  {
    hide Lawful, Intact, ResolveRef, Acceptable, Unpack;
    var res := ResolveRef(db, ref, NO_FAULTS);
    if res.Resolved? && res.commit.Some? {
      var k := ResolvesToStored(db, ref, NO_FAULTS);
      var files := CommitContent(c, db, k);
    }
  }

  // Where the default label exists it stands for the reference without a child.
  lemma DefaultIsMain(db: Db, owner: string, name: string, f: ReadFaults)
    requires (owner, name) in db.modules && (db.modules[(owner, name)].id, "main") in db.labels
    ensures ResolveRef(db, ByName(owner, name, NoChild), f) == ResolveRef(db, ByName(owner, name, LabelName("main")), f)
  {
  }

  // A reference that is a stored commit ID resolves to that commit exactly when the module read works and
  // either the commit read works, or the fallback label of the same name happens to point to that commit.
  lemma CommitRefExact(c: Codec, db: Db, owner: string, name: string, id: string, f: ReadFaults)
    requires Intact(c, db) && (owner, name) in db.modules
    requires (db.modules[(owner, name)].id, id) in db.commits
    ensures var m := db.modules[(owner, name)];
      ResolveRef(db, ByName(owner, name, RefName(id)), f) == Resolved(m, Some(db.commits[(m.id, id)]))
      <==>
      && !f.moduleRead
      && (!f.refRead
          || (!f.labelRead && !f.commitRead && (m.id, id) in db.labels && db.labels[(m.id, id)].commitId == id))
  {
    var m := db.modules[(owner, name)];
    assert CommitOk(db, (m.id, id));
    if (m.id, id) in db.labels {
      assert LabelOk(db, (m.id, id));
      assert CommitOk(db, (m.id, db.labels[(m.id, id)].commitId));
    }
  }

  lemma DownloadByCommit(c: Codec, a: Accounts, db: Db, userId: string, owner: string, name: string, id: string)
    returns (files: seq<File>)
    requires Lawful(c) && Intact(c, db)
    requires (owner, name) in db.modules && (db.modules[(owner, name)].id, id) in db.commits
    requires CanRead(a, userId, db.modules[(owner, name)])
    ensures DownloadOne(c, a, db, userId, ByName(owner, name, RefName(id)), NO_FAULTS)
      == Ok((db.commits[(db.modules[(owner, name)].id, id)], files))
    ensures Unpack(c, db.blobs[db.commits[(db.modules[(owner, name)].id, id)].storageKey]) == Some(files)
  {
    CommitRefExact(c, db, owner, name, id, NO_FAULTS);
    files := CommitContent(c, db, (db.modules[(owner, name)].id, id));
  }

  // If a commit row is in two states, the bytes behind it have the same digest in both.
  lemma SameRowSameDigest(c: Codec, db: Db, db': Db, k: (string, string))
    requires Lawful(c) && Intact(c, db) && Intact(c, db')
    requires k in db.commits && k in db'.commits && db'.commits[k] == db.commits[k]
    ensures var key := db.commits[k].storageKey;
      key in db.blobs && key in db'.blobs && c.hash(db'.blobs[key]) == c.hash(db.blobs[key])
  {
    hide Lawful, Intact, Acceptable, Unpack;
    var _ := CommitContent(c, db, k);
    var _ := CommitContent(c, db', k);
  }

  // With nothing assumed of digests, a download by commit ID works in any later state too, and returns the same
  // commit row; it returns the same files exactly when the bytes under the commit's key are the same.
  lemma PinnedDownloadExact(c: Codec, a: Accounts, db: Db, a': Accounts, db': Db, userId: string,
                            owner: string, name: string, id: string)
    requires Lawful(c) && Intact(c, db) && Intact(c, db') && Evolves(c, db, db')
    requires (owner, name) in db.modules && (db.modules[(owner, name)].id, id) in db.commits
    requires CanRead(a, userId, db.modules[(owner, name)]) && CanRead(a', userId, db.modules[(owner, name)])
    ensures var ref, commit := ByName(owner, name, RefName(id)), db.commits[(db.modules[(owner, name)].id, id)];
      var r, r' := DownloadOne(c, a, db, userId, ref, NO_FAULTS), DownloadOne(c, a', db', userId, ref, NO_FAULTS);
      && r.Ok? && r'.Ok? && r.value.0 == commit && r'.value.0 == commit
      && commit.storageKey in db.blobs && commit.storageKey in db'.blobs
      && (r'.value.1 == r.value.1 <==> db'.blobs[commit.storageKey] == db.blobs[commit.storageKey])
  {
    hide Lawful, Intact, CanRead, DownloadOne, Unpack, Acceptable;
    var k := (db.modules[(owner, name)].id, id);
    SameRowSameDigest(c, db, db', k);
    var _ := DownloadByCommit(c, a, db, userId, owner, name, id);
    var _ := DownloadByCommit(c, a', db', userId, owner, name, id);
    var _ := CommitContent(c, db, k);
    var _ := CommitContent(c, db', k);
  }

  // Pinned content never changes, as long as no two archives stored in the two states collide: from any intact
  // state to any later one, a download by commit ID returns the same commit row and the same files, whatever
  // labels were created in between.
  lemma PinnedDownload(c: Codec, a: Accounts, db: Db, a': Accounts, db': Db, userId: string,
                       owner: string, name: string, id: string)
    requires Lawful(c) && Intact(c, db) && Intact(c, db') && Evolves(c, db, db')
    requires NoCollision(c, db.blobs.Values + db'.blobs.Values)
    requires (owner, name) in db.modules && (db.modules[(owner, name)].id, id) in db.commits
    requires CanRead(a, userId, db.modules[(owner, name)]) && CanRead(a', userId, db.modules[(owner, name)])
    ensures var ref := ByName(owner, name, RefName(id));
      && DownloadOne(c, a, db, userId, ref, NO_FAULTS).Ok?
      && DownloadOne(c, a', db', userId, ref, NO_FAULTS) == DownloadOne(c, a, db, userId, ref, NO_FAULTS)
  {
    hide Lawful, Intact, CanRead, DownloadOne;
    SameRowSameDigest(c, db, db', (db.modules[(owner, name)].id, id));
    PinnedDownloadExact(c, a, db, a', db', userId, owner, name, id);
  }
}
