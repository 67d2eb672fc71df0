/** The file handlers of the REST interface, and their agreement with downloads. */
module RestFiles {
  import opened Model
  import opened Authz
  import opened Archive
  import opened Store
  import opened Resolve

  /** The bytes behind a commit of a module that the caller may read. The module, the commit and the blob are read
      one after the other, each from the tables as they then are; the caller's role is resolved after the first. */
  function ResolveOverTime(a: Accounts, atModule: Db, atCommit: Db, atBlob: Db,
                           userId: string, owner: string, repo: string, id: string, f: ReadFaults): Result<Bytes>
  {
    if f.moduleRead then Err(Internal)
    else if (owner, repo) !in atModule.modules then Err(NotFound)
    else
      var m := atModule.modules[(owner, repo)];
      if !CanRead(a, userId, m) then Err(NotFound)
      else if f.commitRead then Err(Internal)
      else if (m.id, id) !in atCommit.commits then Err(NotFound)
      else
        var key := atCommit.commits[(m.id, id)].storageKey;
        if f.blobRead || key !in atBlob.blobs then Err(Internal) else Ok(atBlob.blobs[key])
  }

  /** The same where nothing changes between the reads. */
  function ResolveCommitZip(a: Accounts, db: Db, userId: string, owner: string, repo: string, id: string, f: ReadFaults)
    : Result<Bytes>
  {
    ResolveOverTime(a, db, db, db, userId, owner, repo, id, f)
  }

  // However the tables evolve between the reads, a handler whose reads do not fail answers with an internal error
  // never; it finds the bytes exactly when the module was there at its first read, the caller may read it, and the
  // commit was there at the second; and the bytes are an archive whose digest is the commit's ID.
  lemma ZipOverTimeExact(c: Codec, a: Accounts, atModule: Db, atCommit: Db, atBlob: Db,
                         userId: string, owner: string, repo: string, id: string)
    requires Lawful(c) && Intact(c, atModule) && Intact(c, atCommit) && Intact(c, atBlob)
    requires Evolves(c, atModule, atCommit) && Evolves(c, atCommit, atBlob)
    ensures var r := ResolveOverTime(a, atModule, atCommit, atBlob, userId, owner, repo, id, NO_FAULTS);
      && (r.Ok? <==>
            && (owner, repo) in atModule.modules && Readable(a, userId, atModule.modules[(owner, repo)])
            && (atModule.modules[(owner, repo)].id, id) in atCommit.commits)
      && (r.Err? ==> r.error == NotFound)
      && (r.Ok? ==> c.hash(r.value) == id && IsArchive(c, r.value))
  {
    hide Lawful, CanRead, Readable, IsArchive;
    if (owner, repo) in atModule.modules { RightsFromTables(a, userId, atModule.modules[(owner, repo)]); }
    if (owner, repo) in atModule.modules && (atModule.modules[(owner, repo)].id, id) in atCommit.commits {
      var k := (atModule.modules[(owner, repo)].id, id);
      ArchiveBehindCommit(c, atCommit, k);
      var key := atCommit.commits[k].storageKey;
      assert key in atBlob.blobs && c.hash(atBlob.blobs[key]) == c.hash(atCommit.blobs[key]);
      assert BlobOk(c, key, atBlob.blobs[key]);
    }
  }

  lemma ArchiveBehindCommit(c: Codec, db: Db, k: (string, string))
    requires Lawful(c) && Intact(c, db) && k in db.commits
    ensures var key := db.commits[k].storageKey;
      key in db.blobs && c.hash(db.blobs[key]) == k.1 && IsArchive(c, db.blobs[key])
  {
    hide Lawful, IsArchive;
    assert CommitOk(db, k);
    DigestEndsKey(k.0, k.1);
    assert BlobOk(c, db.commits[k].storageKey, db.blobs[db.commits[k].storageKey]);
  }

  function PathsAndSizes(files: seq<File>): seq<(string, nat)> {
    seq(|files|, i requires 0 <= i < |files| => (files[i].path, |files[i].content|))
  }

  /** A file list read as a directory: the first file of a path, if there is one. */
  ghost predicate Answers(files: seq<File>, path: string, answer: FileAnswer) {
    if forall i :: 0 <= i < |files| ==> files[i].path != path then answer == FileNotFound
    else exists k :: 0 <= k < |files| && IsFirst(files, path, k) && answer == Found(path, files[k].content)
  }

  predicate IsFirst(files: seq<File>, path: string, k: nat)
    requires k < |files|
  {
    files[k].path == path && forall j :: 0 <= j < k ==> files[j].path != path
  }

  lemma {:induction false} FirstExists(files: seq<File>, path: string, i: nat) returns (k: nat)
    requires i < |files| && files[i].path == path
    ensures k < |files| && IsFirst(files, path, k)
  {
    if j :| 0 <= j < i && files[j].path == path {
      k := FirstExists(files, path, j);
    } else {
      k := i;
    }
  }

  // In intact tables, and with no failing read, the file handlers find a commit exactly when the module exists,
  // the caller may read it and the commit is one of its; they never meet a row that names something missing.
  lemma CommitZipExact(c: Codec, a: Accounts, db: Db, userId: string, owner: string, repo: string, id: string)
    requires Lawful(c) && Intact(c, db)
    ensures var r := ResolveCommitZip(a, db, userId, owner, repo, id, NO_FAULTS);
      && (r.Ok? <==>
            && (owner, repo) in db.modules && Readable(a, userId, db.modules[(owner, repo)])
            && (db.modules[(owner, repo)].id, id) in db.commits)
      && (r.Err? ==> r.error == NotFound)
      && (r.Ok? ==> IsArchive(c, r.value))
  {
    hide Lawful, CanRead, Readable, IsArchive, Intact, Evolves;
    EvolvesToItself(c, db);
    ZipOverTimeExact(c, a, db, db, db, userId, owner, repo, id);
  }

  // Nobody who is not logged in gets bytes of a private module out of a file handler, whatever fails and however the
  // tables evolve between the reads; nor out of a download.
  lemma PrivateStaysPrivate(c: Codec, a: Accounts, atModule: Db, atCommit: Db, atBlob: Db,
                            owner: string, repo: string, id: string, child: Child, f: ReadFaults)
    requires (owner, repo) in atModule.modules && atModule.modules[(owner, repo)].visibility == Private
    ensures ResolveOverTime(a, atModule, atCommit, atBlob, "", owner, repo, id, f).Err?
    ensures DownloadOne(c, a, atModule, "", ByName(owner, repo, child), f).Err?
  {
    hide Unpack, CanRead;
    RightsFromTables(a, "", atModule.modules[(owner, repo)]);
  }

  lemma EvolvesToItself(c: Codec, db: Db)
    ensures Evolves(c, db, db)
  {
  }

  // What the file handlers show of a commit is what a download by its ID returns: each path has the content of
  // the first downloaded file of that path, there is no answer for a path exactly when no such file was
  // downloaded, and the listing has the downloaded paths in order with the sizes of the downloaded contents.
  lemma HandlersShowTheDownload(c: Codec, a: Accounts, db: Db, userId: string, owner: string, repo: string, id: string)
    requires Lawful(c) && Intact(c, db)
    requires ResolveCommitZip(a, db, userId, owner, repo, id, NO_FAULTS).Ok?
    ensures var data := ResolveCommitZip(a, db, userId, owner, repo, id, NO_FAULTS).value;
      var r := DownloadOne(c, a, db, userId, ByName(owner, repo, RefName(id)), NO_FAULTS);
      && r.Ok? && r.value.0.id == id
      && (forall path :: path != "" ==> Answers(r.value.1, path, RestAnswer(c, data, path)))
      && RestListing(c, data) == Some(PathsAndSizes(r.value.1))
  {
    hide Lawful, Intact, CanRead, Readable, IsArchive, DownloadOne, Unpack, RestAnswer, RestListing;
    CommitZipExact(c, a, db, userId, owner, repo, id);
    RightsFromTables(a, userId, db.modules[(owner, repo)]);
    var data := ResolveCommitZip(a, db, userId, owner, repo, id, NO_FAULTS).value;
    var files := DownloadByCommit(c, a, db, userId, owner, repo, id);
    var _ := CommitContent(c, db, (db.modules[(owner, repo)].id, id));
    forall path: string | path != "" ensures Answers(files, path, RestAnswer(c, data, path)) {
      ReadersAgree(c, data, path);
      if i :| 0 <= i < |files| && files[i].path == path {
        var k := FirstExists(files, path, i);
        assert IsFirst(files, path, k);
      }
    }
    ReadersAgree(c, data, "x");
    assert RestListing(c, data).value == PathsAndSizes(files);
  }
}
