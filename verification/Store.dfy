/** The module, commit, label and blob tables as one value, the writes the handlers make to them, and the
    integrity that every admissible write keeps. */
module Store {
  import opened Model
  import opened Archive

  /** Each table is a map from the columns its primary key or unique index covers. */
  datatype Db = Db(
    modules: map<(string, string), Module>,
    commits: map<(string, string), Commit>,
    labels: map<(string, string), Label>,
    blobs: map<string, Bytes>)

  const EMPTY_DB: Db := Db(map[], map[], map[], map[])

  datatype Write =
    | PutBlob(key: string, data: Bytes)
    | InsertCommit(r: Commit)
    | UpsertLabel(l: Label)

  function StorageKey(moduleId: string, commitId: string): string {
    moduleId + "/" + commitId
  }

  /** A blob is overwritten, a commit is inserted, and a label row that exists changes only its commit and
      its update time. */
  function Apply(db: Db, w: Write): Db {
    match w
    case PutBlob(key, data) => db.(blobs := db.blobs[key := data])
    case InsertCommit(c) => db.(commits := db.commits[(c.moduleId, c.id) := c])
    case UpsertLabel(l) =>
      var k := (l.moduleId, l.name);
      var row := if k in db.labels then db.labels[k].(commitId := l.commitId, updatedAt := l.updatedAt) else l;
      db.(labels := db.labels[k := row])
  }

  function ApplyAll(db: Db, ws: seq<Write>): Db {
    if ws == [] then db else Apply(ApplyAll(db, ws[..|ws| - 1]), ws[|ws| - 1])
  }

  lemma {:induction false} ApplyAllConcat(db: Db, a: seq<Write>, b: seq<Write>)
    ensures ApplyAll(db, a + b) == ApplyAll(ApplyAll(db, a), b)
  {
    if b == [] {
      assert a + b == a;
    } else {
      assert (a + b)[..|a + b| - 1] == a + b[..|b| - 1];
      ApplyAllConcat(db, a, b[..|b| - 1]);
    }
  }

  // ---------- integrity ----------

  /** A blob sits under a key that ends in its own digest, and is an archive of an accepted file list. */
  ghost predicate BlobOk(c: Codec, key: string, data: Bytes) {
    |key| > 64 && c.hash(data) == key[|key| - 64..] && IsArchive(c, data)
  }

  ghost predicate CommitOk(db: Db, k: (string, string)) {
    k in db.commits &&
    var r := db.commits[k];
    && r.moduleId == k.0 && r.id == k.1 && IsDigest(r.id)
    && r.storageKey == StorageKey(k.0, k.1) && r.storageKey in db.blobs
  }

  ghost predicate LabelOk(db: Db, k: (string, string)) {
    k in db.labels &&
    var l := db.labels[k];
    && l.moduleId == k.0 && l.name == k.1
    && (k.0, l.commitId) in db.commits
    && db.commits[(k.0, l.commitId)].createdAt <= l.updatedAt
  }

  ghost predicate ModulesOk(db: Db) {
    && (forall k :: k in db.modules ==> db.modules[k].ownerName == k.0 && db.modules[k].name == k.1)
    && (forall k, k' :: k in db.modules && k' in db.modules && db.modules[k].id == db.modules[k'].id ==> k == k')
  }

  ghost predicate Intact(c: Codec, db: Db) {
    && ModulesOk(db)
    && (forall key :: key in db.blobs ==> BlobOk(c, key, db.blobs[key]))
    && (forall k :: k in db.commits ==> CommitOk(db, k))
    && (forall k :: k in db.labels ==> LabelOk(db, k))
  }

  /** What the code has established about a write at the moment it makes it. */
  ghost predicate Admissible(c: Codec, db: Db, w: Write) {
    match w
    case PutBlob(key, data) => BlobOk(c, key, data)
    case InsertCommit(r) =>
      && (r.moduleId, r.id) !in db.commits
      && IsDigest(r.id) && r.storageKey == StorageKey(r.moduleId, r.id) && r.storageKey in db.blobs
    case UpsertLabel(l) =>
      && (l.moduleId, l.commitId) in db.commits
      && db.commits[(l.moduleId, l.commitId)].createdAt <= l.updatedAt
  }

  /** What a caller may rely on from one state to any later one: module and commit rows never change, a blob
      keeps its digest, and a label row keeps its ID and creation time. */
  ghost predicate Evolves(c: Codec, db: Db, db': Db) {
    && (forall k :: k in db.modules ==> k in db'.modules && db'.modules[k] == db.modules[k])
    && (forall k :: k in db.commits ==> k in db'.commits && db'.commits[k] == db.commits[k])
    && (forall k :: k in db.blobs ==> k in db'.blobs && c.hash(db'.blobs[k]) == c.hash(db.blobs[k]))
    && (forall k :: k in db.labels ==>
          k in db'.labels && db'.labels[k].id == db.labels[k].id && db'.labels[k].createdAt == db.labels[k].createdAt)
  }

  lemma PutKeepsIntact(c: Codec, db: Db, key: string, data: Bytes)
    requires Intact(c, db) && BlobOk(c, key, data)
    ensures Intact(c, Apply(db, PutBlob(key, data))) && Evolves(c, db, Apply(db, PutBlob(key, data)))
  {
    hide IsArchive;
    var db' := Apply(db, PutBlob(key, data));
    forall k | k in db'.commits ensures CommitOk(db', k) { assert CommitOk(db, k); }
    forall k | k in db'.labels ensures LabelOk(db', k) { assert LabelOk(db, k); }
    assert key in db.blobs ==> BlobOk(c, key, db.blobs[key]);
  }

  lemma InsertKeepsIntact(c: Codec, db: Db, r: Commit)
    requires Intact(c, db) && Admissible(c, db, InsertCommit(r))
    ensures Intact(c, Apply(db, InsertCommit(r))) && Evolves(c, db, Apply(db, InsertCommit(r)))
  {
    hide BlobOk;
    var db' := Apply(db, InsertCommit(r));
    forall k | k in db'.commits ensures CommitOk(db', k) { assert k in db.commits ==> CommitOk(db, k); }
    forall k | k in db'.labels ensures LabelOk(db', k) { assert LabelOk(db, k); }
  }

  lemma UpsertKeepsLabels(c: Codec, db: Db, l: Label, k: (string, string))
    requires Intact(c, db) && Admissible(c, db, UpsertLabel(l))
    requires k in Apply(db, UpsertLabel(l)).labels
    ensures LabelOk(Apply(db, UpsertLabel(l)), k)
  {
    hide BlobOk, CommitOk, ModulesOk;
    assert k in db.labels ==> LabelOk(db, k);
  }

  lemma UpsertKeepsIntact(c: Codec, db: Db, l: Label)
    requires Intact(c, db) && Admissible(c, db, UpsertLabel(l))
    ensures Intact(c, Apply(db, UpsertLabel(l))) && Evolves(c, db, Apply(db, UpsertLabel(l)))
  {
    hide LabelOk, BlobOk;
    var db' := Apply(db, UpsertLabel(l));
    forall k | k in db'.commits ensures CommitOk(db', k) { assert CommitOk(db, k); }
    forall k | k in db'.labels ensures LabelOk(db', k) { UpsertKeepsLabels(c, db, l, k); }
  }

  lemma ApplyKeepsIntact(c: Codec, db: Db, w: Write)
    requires Intact(c, db) && Admissible(c, db, w)
    ensures Intact(c, Apply(db, w)) && Evolves(c, db, Apply(db, w))
  {
    match w
    case PutBlob(key, data) => PutKeepsIntact(c, db, key, data);
    case InsertCommit(r) => InsertKeepsIntact(c, db, r);
    case UpsertLabel(l) => UpsertKeepsIntact(c, db, l);
  }

  lemma DigestEndsKey(moduleId: string, commitId: string)
    requires |commitId| == 64
    ensures var key := StorageKey(moduleId, commitId); |key| > 64 && key[|key| - 64..] == commitId
  {
  }

  // The stored bytes behind a commit have the commit's ID as their digest, and read back as a file list whose
  // archive they are.
  lemma CommitContent(c: Codec, db: Db, k: (string, string)) returns (files: seq<File>)
    requires Lawful(c) && Intact(c, db) && k in db.commits
    ensures var r := db.commits[k];
      && r.id == k.1 && r.moduleId == k.0
      && r.storageKey in db.blobs && c.hash(db.blobs[r.storageKey]) == r.id
      && Acceptable(files) && c.encode(files) == Some(db.blobs[r.storageKey])
      && Unpack(c, db.blobs[r.storageKey]) == Some(files)
  {
    assert CommitOk(db, k);
    var r := db.commits[k];
    DigestEndsKey(k.0, k.1);
    assert BlobOk(c, r.storageKey, db.blobs[r.storageKey]);
    files :| Acceptable(files) && c.encode(files) == Some(db.blobs[r.storageKey]);
    UnpackInvertsEncode(c, files);
  }

  // In intact tables a label names a commit of its module, stored no later than the label was last moved.
  lemma LabelTarget(c: Codec, db: Db, k: (string, string))
    requires Intact(c, db) && k in db.labels
    ensures (k.0, db.labels[k].commitId) in db.commits
    ensures db.commits[(k.0, db.labels[k].commitId)].createdAt <= db.labels[k].updatedAt
    ensures db.labels[k].moduleId == k.0 && db.labels[k].name == k.1
  {
    hide BlobOk, CommitOk;
    assert LabelOk(db, k);
  }

  // If the bytes under a commit's key are the archive of an accepted file list, the commit reads back as that list.
  lemma CommitBytes(c: Codec, db: Db, k: (string, string), files: seq<File>)
    requires Lawful(c) && Intact(c, db) && k in db.commits
    requires Acceptable(files) && c.encode(files).Some?
    requires StorageKey(k.0, k.1) in db.blobs && db.blobs[StorageKey(k.0, k.1)] == c.encode(files).value
    ensures var r := db.commits[k];
      r.id == k.1 && r.storageKey in db.blobs && Unpack(c, db.blobs[r.storageKey]) == Some(files)
  {
    hide Lawful, Acceptable, Unpack, BlobOk, LabelOk, ModulesOk;
    assert CommitOk(db, k);
    UnpackInvertsEncode(c, files);
  }
}
