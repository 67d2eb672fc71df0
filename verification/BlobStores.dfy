/** The blob store on the local disk, its containment check, and its equivalence with the blob table. */
module BlobStores {
  import opened Model
  import opened Paths
  import opened Archive
  import opened Store

  /** What the operating system reports as the current directory. */
  type Dir = s: string | IsAbs(s) witness "/"

  /** Making a path absolute needs the current directory only when the path is relative. */
  function AbsOf(cwd: Option<Dir>, path: string): Option<string> {
    if IsAbs(path) then Some(Clean(path))
    else if cwd.Some? then Some(JoinTwo(cwd.value, path))
    else None
  }

  predicate HasPrefix(s: string, p: string) {
    |p| <= |s| && s[..|p|] == p
  }

  /** The file a key names, unless it leads outside the root. */
  function SafePath(cwd: Option<Dir>, root: string, key: string): Option<string> {
    var abs, base := AbsOf(cwd, JoinTwo(root, key)), AbsOf(cwd, root);
    if abs.None? || base.None? then None
    else if !HasPrefix(abs.value, base.value + "/") && abs.value != base.value then None
    else abs
  }

  /** The uncleaned path a key stands for. */
  function Target(root: string, key: string): string {
    if root != "" then root + "/" + key else key
  }

  /** Containment told on places: the root's names come first, and a root without names holds only itself. */
  predicate Inside(base: seq<string>, place: seq<string>) {
    (base != [] && base <= place) || place == base
  }

  // ---------- what the containment check accepts ----------

  lemma PlaceInjective(a: seq<string>, b: seq<string>)
    requires AllPlain(a) && AllPlain(b)
    ensures Join(a) == Join(b) <==> a == b
  {
    if a != [] { SplitJoin(a); }
    if b != [] { SplitJoin(b); }
    JoinEmpty(a);
    JoinEmpty(b);
  }

  lemma JoinEmpty(a: seq<string>)
    requires AllPlain(a)
    ensures Join(a) == "" <==> a == []
    ensures a != [] ==> Join(a)[0] != '/'
  {
    if a != [] { assert Plain(a[0]) && a[0] <= Join(a) && a[0][0] in a[0]; }
  }

  // One place lies strictly below another exactly when its written form continues the other's with a slash.
  lemma PrefixExact(base: seq<string>, place: seq<string>)
    requires AllPlain(base) && AllPlain(place)
    ensures HasPrefix("/" + Join(place), "/" + Join(base) + "/") <==> base != [] && base < place
  {
    hide Join, Split;
    var s, p := "/" + Join(place), "/" + Join(base) + "/";
    JoinEmpty(base);
    JoinEmpty(place);
    if base != [] && base < place {
      var rest := place[|base|..];
      assert place == base + rest;
      JoinConcat(base, rest);
      assert s == p + Join(rest);
    }
    if base == [] {
      assert p[1] == '/' && place != [] ==> s[1] == Join(place)[0];
    } else if HasPrefix(s, p) {
      var rest := s[|p|..];
      assert s == p + rest;
      assert Join(place) == s[1..] && s[1..] == Join(base) + "/" + rest;
      assert place != [];
      SplitConcat(Join(base), rest);
      SplitJoin(base);
      SplitJoin(place);
    }
  }

  lemma AbsOfTarget(cwd: Dir, root: string, key: string)
    ensures AbsOf(Some(cwd), root) == Some("/" + Join(Place(cwd, root)))
    ensures AbsOf(Some(cwd), JoinTwo(root, key)) == Some("/" + Join(Place(cwd, Target(root, key))))
  {
    AbsIsPlace(cwd, root);
    if root != "" || key != "" {
      CleanKeepsPlace(cwd, Target(root, key));
    } else {
      AbsIsPlace(cwd, "");
    }
  }

  // The check accepts a key exactly when the place it leads to lies inside the root's, and answers with that
  // place. A root that is "/" accepts nothing but itself.
  lemma SafePathExact(cwd: Dir, root: string, key: string)
    ensures var base, place := Place(cwd, root), Place(cwd, Target(root, key));
      SafePath(Some(cwd), root, key) == if Inside(base, place) then Some("/" + Join(place)) else None
  {
    hide Join, Split, Fold, Place, Target, JoinTwo, Clean, HasPrefix;
    var base, place := Place(cwd, root), Place(cwd, Target(root, key));
    AbsOfTarget(cwd, root, key);
    PlaceIsPlain(cwd, root);
    PlaceIsPlain(cwd, Target(root, key));
    PrefixExact(base, place);
    PlaceInjective(base, place);
    assert ("/" + Join(base) == "/" + Join(place)) <==> Join(base) == Join(place) by {
      assert ("/" + Join(base))[1..] == Join(base) && ("/" + Join(place))[1..] == Join(place);
    }
  }

  // Where the current directory is unknown, an absolute root answers as before and any other root answers nothing.
  lemma SafePathWithoutDirectory(cwd: Dir, root: string, key: string)
    ensures SafePath(None, root, key) == if IsAbs(root) then SafePath(Some(cwd), root, key) else None
  {
    if IsAbs(root) {
      assert IsAbs(JoinTwo(root, key));
    }
  }

  // Two accepted keys share a file exactly when they lead to the same place.
  lemma SameFileExact(cwd: Dir, root: string, a: string, b: string)
    requires SafePath(Some(cwd), root, a).Some? && SafePath(Some(cwd), root, b).Some?
    ensures SafePath(Some(cwd), root, a) == SafePath(Some(cwd), root, b)
      <==> Place(cwd, Target(root, a)) == Place(cwd, Target(root, b))
  {
    hide Join, Split, Fold, Place, Target, SafePath;
    var pa, pb := Place(cwd, Target(root, a)), Place(cwd, Target(root, b));
    SafePathExact(cwd, root, a);
    SafePathExact(cwd, root, b);
    PlaceIsPlain(cwd, Target(root, a));
    PlaceIsPlain(cwd, Target(root, b));
    PlaceInjective(pa, pb);
    assert ("/" + Join(pa))[1..] == Join(pa) && ("/" + Join(pb))[1..] == Join(pb);
  }

  // ---------- the keys that pushes build ----------

  /** A module ID and a commit ID with a slash between them. */
  ghost predicate IsTwoPart(key: string) {
    exists a, b :: Plain(a) && Plain(b) && key == StorageKey(a, b)
  }

  // Every key under which a push stores an archive has two parts.
  lemma PushedKeyIsTwoPart(moduleId: string, commitId: string)
    requires Plain(moduleId) && IsDigest(commitId)
    ensures IsTwoPart(StorageKey(moduleId, commitId))
  {
    assert commitId[0] != '.';
    assert forall i :: 0 <= i < |commitId| ==> commitId[i] != '/';
    assert Plain(commitId);
  }

  lemma TwoPartPlace(cwd: Dir, root: string, a: string, b: string)
    requires Plain(a) && Plain(b)
    ensures Place(cwd, Target(root, StorageKey(a, b))) == Place(cwd, root) + [a, b]
  {
    hide Split, Fold;
    var key := StorageKey(a, b);
    assert key[0] == a[0] && a[0] in a;
    SplitOne(a);
    SplitOne(b);
    SplitConcat(a, b);
    var start := if IsAbs(root) then root else if root != "" then cwd + "/" + root else cwd;
    var full := if root == "" || !IsAbs(root) then cwd + "/" + Target(root, key) else Target(root, key);
    assert full == start + "/" + key;
    SplitConcat(start, key);
    FoldConcat(true, [], Split(start), [a] + [b]);
    assert [a] + [b] == [a, b];
    FoldPlain(true, Fold(true, [], Split(start)), [a, b]);
    if root == "" {
      SplitOne("");
      SplitConcat(cwd, "");
      FoldConcat(true, [], Split(cwd), [""]);
      FoldNothing(Fold(true, [], Split(cwd)));
    }
  }

  lemma TwoPartUnique(a: string, b: string, a': string, b': string)
    requires Plain(a) && Plain(b) && Plain(a') && Plain(b')
    ensures StorageKey(a, b) == StorageKey(a', b') <==> a == a' && b == b'
  {
    hide Split;
    SplitConcat(a, b);
    SplitConcat(a', b');
    SplitOne(a);
    SplitOne(b);
    SplitOne(a');
    SplitOne(b');
    if StorageKey(a, b) == StorageKey(a', b') {
      assert ([a] + [b])[0] == ([a'] + [b'])[0] && ([a] + [b])[1] == ([a'] + [b'])[1];
    }
  }

  // A two-part key is accepted under every root except "/", and stands two names below the root.
  lemma TwoPartAccepted(cwd: Dir, root: string, a: string, b: string)
    requires Plain(a) && Plain(b)
    ensures SafePath(Some(cwd), root, StorageKey(a, b)).Some? <==> Place(cwd, root) != []
    ensures Place(cwd, root) != [] ==>
      SafePath(Some(cwd), root, StorageKey(a, b)) == Some("/" + Join(Place(cwd, root) + [a, b]))
  {
    hide Join, Split, Fold, Place, Target, SafePath, StorageKey;
    SafePathExact(cwd, root, StorageKey(a, b));
    TwoPartPlace(cwd, root, a, b);
  }

  // Under the root "/" every key that a push builds is refused.
  lemma SlashRootRefuses(cwd: Dir, a: string, b: string)
    requires Plain(a) && Plain(b)
    ensures Place(cwd, "/") == [] && SafePath(Some(cwd), "/", StorageKey(a, b)) == None
  {
    assert Split("") == [""] && Split("/") == ["", ""];
    FoldNothing([]);
    FoldConcat(true, [], [""], [""]);
    assert [""] + [""] == ["", ""];
    TwoPartAccepted(cwd, "/", a, b);
  }

  // ---------- the disk and the table ----------

  datatype Disk = Disk(files: map<seq<string>, Bytes>, dirs: set<seq<string>>)

  datatype Reply = Done | Loaded(data: Bytes) | NoSuchKey | InvalidKey | Failed

  datatype Op = Put(key: string, data: Bytes) | Get(key: string)

  function Parent(place: seq<string>): seq<string> {
    if place == [] then [] else place[..|place| - 1]
  }

  predicate IsDir(d: Disk, place: seq<string>) {
    place == [] || place in d.dirs
  }

  /** Some file stands on the way to a place, or at it. */
  predicate Blocked(d: Disk, place: seq<string>) {
    exists i :: 0 <= i <= |place| && place[..i] in d.files
  }

  function Ancestors(place: seq<string>): (r: set<seq<string>>)
    ensures forall p :: p in r <==> p <= place
  {
    var r := set i | 0 <= i <= |place| :: place[..i];
    assert forall p :: p <= place ==> p == place[..|p|];
    r
  }

  /** Directories are made on the way; a file in the way, or a directory at the end, fails the write. */
  function WriteAt(d: Disk, place: seq<string>, data: Bytes): (Disk, Reply) {
    if Blocked(d, Parent(place)) then (d, Failed)
    else
      var made := d.(dirs := d.dirs + Ancestors(Parent(place)));
      if IsDir(made, place) then (made, Failed) else (made.(files := made.files[place := data]), Done)
  }

  function ReadAt(d: Disk, place: seq<string>): Reply {
    if IsDir(d, place) || Blocked(d, Parent(place)) then Failed
    else if place in d.files then Loaded(d.files[place])
    else NoSuchKey
  }

  function DiskStep(cwd: Dir, root: string, d: Disk, op: Op): (Disk, Reply) {
    var path := SafePath(Some(cwd), root, op.key);
    if path.None? then (d, InvalidKey)
    else
      var place := Place(cwd, path.value);
      if op.Put? then WriteAt(d, place, op.data) else (d, ReadAt(d, place))
  }

  function TableStep(blobs: map<string, Bytes>, op: Op): (map<string, Bytes>, Reply) {
    if op.Put? then (blobs[op.key := op.data], Done)
    else if op.key in blobs then (blobs, Loaded(blobs[op.key]))
    else (blobs, NoSuchKey)
  }

  // ---------- what a put changes ----------

  /** The place a key leads to. */
  function KeyPlace(cwd: Dir, root: string, key: string): seq<string> {
    Place(cwd, Target(root, key))
  }

  lemma PlaceWrittenOut(cwd: Dir, place: seq<string>)
    requires AllPlain(place)
    ensures Place(cwd, "/" + Join(place)) == place
  {
    hide Join, Split, Fold;
    SplitConcat("", Join(place));
    SplitOne("");
    assert "" + "/" + Join(place) == "/" + Join(place);
    FoldConcat(true, [], [""], Split(Join(place)));
    FoldNothing([]);
    if place == [] {
      JoinEmpty(place);
    } else {
      SplitJoin(place);
      FoldPlain(true, [], place);
      assert [] + place == place;
    }
  }

  // The path an accepted key names leads to the key's place.
  lemma PathOfKey(cwd: Dir, root: string, key: string)
    ensures var path := SafePath(Some(cwd), root, key);
      && (path.Some? <==> Inside(Place(cwd, root), KeyPlace(cwd, root, key)))
      && (path.Some? ==> Place(cwd, path.value) == KeyPlace(cwd, root, key))
  {
    hide Join, Place, Target, SafePath, AllPlain;
    SafePathExact(cwd, root, key);
    PlaceIsPlain(cwd, Target(root, key));
    PlaceWrittenOut(cwd, KeyPlace(cwd, root, key));
  }

  /** What a place holds once data has been written at another. A proper ancestor of the written file is a
      directory now, and nothing can be below the file. */
  function ReadAfterWrite(written: seq<string>, data: Bytes, place: seq<string>, before: Reply): Reply {
    if place == written then Loaded(data)
    else if place <= written || written <= place then Failed
    else before
  }

  lemma WriteThenRead(d: Disk, written: seq<string>, data: Bytes, place: seq<string>)
    requires WriteAt(d, written, data).1 == Done
    ensures ReadAt(WriteAt(d, written, data).0, place) == ReadAfterWrite(written, data, place, ReadAt(d, place))
  {
    var d' := WriteAt(d, written, data).0;
    assert d'.files == d.files[written := data];
    if written < place {
      assert Parent(place)[..|written|] == written;
    } else if place < written {
      assert place <= Parent(written);
    } else if place == written {
      forall i | 0 <= i <= |Parent(place)| ensures Parent(place)[..i] !in d'.files {
        assert |Parent(place)[..i]| < |written|;
      }
    } else {
      forall i | 0 <= i <= |Parent(place)| ensures Parent(place)[..i] in d'.files <==> Parent(place)[..i] in d.files {
        assert Parent(place)[..i] <= place;
      }
      assert place in d'.dirs <==> place in d.dirs;
    }
  }

  /** What a get of one key replies after a put under another has succeeded. */
  function GetAfterPut(cwd: Dir, root: string, key: string, data: Bytes, k: string, before: Reply): Reply {
    if !Inside(Place(cwd, root), KeyPlace(cwd, root, k)) then InvalidKey
    else ReadAfterWrite(KeyPlace(cwd, root, key), data, KeyPlace(cwd, root, k), before)
  }

  // A put that succeeds makes every key of the same place load the data, turns the places above and below it into
  // failures, and leaves the reply for every other key as it was; a put that fails writes no file.
  lemma PutThenGet(cwd: Dir, root: string, d: Disk, key: string, data: Bytes, k: string)
    ensures var (d', reply) := DiskStep(cwd, root, d, Op.Put(key, data));
      && (reply == InvalidKey <==> !Inside(Place(cwd, root), KeyPlace(cwd, root, key)))
      && (reply != Done ==> d'.files == d.files)
      && (reply == Done ==>
            DiskStep(cwd, root, d', Op.Get(k)).1
              == GetAfterPut(cwd, root, key, data, k, DiskStep(cwd, root, d, Op.Get(k)).1))
  {
    hide Place, KeyPlace, SafePath, ReadAt, Inside, ReadAfterWrite;
    PathOfKey(cwd, root, key);
    PathOfKey(cwd, root, k);
    if WriteAt(d, KeyPlace(cwd, root, key), data).1 == Done {
      WriteThenRead(d, KeyPlace(cwd, root, key), data, KeyPlace(cwd, root, k));
    }
  }

  // ---------- the stores ----------

  class LocalStore {
    const root: string
    const cwd: Dir
    var disk: Disk

    constructor (cwd: Dir, root: string, disk: Disk)
      ensures this.cwd == cwd && this.root == root && this.disk == disk
    {
      this.cwd := cwd;
      this.root := root;
      this.disk := disk;
    }

    /** What a get of a key replies. */
    function Reads(key: string): Reply
      reads this
    {
      DiskStep(cwd, root, disk, Op.Get(key)).1
    }

    method Put(key: string, data: Bytes) returns (reply: Reply)
      modifies this
      ensures (disk, reply) == DiskStep(cwd, root, old(disk), Op.Put(key, data))
      ensures reply == InvalidKey <==> !Inside(Place(cwd, root), KeyPlace(cwd, root, key))
      ensures reply != Done ==> disk.files == old(disk.files)
      ensures reply == Done ==> forall k :: Reads(k) == GetAfterPut(cwd, root, key, data, k, old(Reads(k)))
    {
      hide Place, KeyPlace, SafePath, Target, Inside, GetAfterPut, ReadAt, Blocked;
      PutThenGet(cwd, root, disk, key, data, key);
      forall k { PutThenGet(cwd, root, disk, key, data, k); }
      var path := SafePath(Some(cwd), root, key);
      if path.None? {
        return InvalidKey;
      }
      var place := Place(cwd, path.value);
      if Blocked(disk, Parent(place)) {
        return Failed;
      }
      disk := disk.(dirs := disk.dirs + Ancestors(Parent(place)));
      if IsDir(disk, place) {
        return Failed;
      }
      disk := disk.(files := disk.files[place := data]);
      return Done;
    }

    method Get(key: string) returns (reply: Reply)
      ensures reply == Reads(key)
    {
      var path := SafePath(Some(cwd), root, key);
      if path.None? {
        return InvalidKey;
      }
      var place := Place(cwd, path.value);
      if IsDir(disk, place) || Blocked(disk, Parent(place)) {
        return Failed;
      }
      if place in disk.files {
        return Loaded(disk.files[place]);
      }
      return NoSuchKey;
    }
  }

  class DbStore {
    var blobs: map<string, Bytes>

    constructor (blobs: map<string, Bytes>)
      ensures this.blobs == blobs
    {
      this.blobs := blobs;
    }

    /** What a get of a key replies. */
    function Reads(key: string): Reply
      reads this
    {
      TableStep(blobs, Op.Get(key)).1
    }

    method Put(key: string, data: Bytes) returns (reply: Reply)
      modifies this
      ensures (blobs, reply) == TableStep(old(blobs), Op.Put(key, data))
      ensures reply == Done && forall k :: Reads(k) == if k == key then Loaded(data) else old(Reads(k))
    {
      blobs := blobs[key := data];
      return Done;
    }

    method Get(key: string) returns (reply: Reply)
      ensures reply == Reads(key)
    {
      if key in blobs {
        return Loaded(blobs[key]);
      }
      return NoSuchKey;
    }
  }

  // ---------- refinement ----------

  /** The disk below a base directory and the table hold the same bytes under the two-part keys, and nothing on
      the disk is in their way. */
  ghost predicate Represents(base: seq<string>, d: Disk, blobs: map<string, Bytes>) {
    && (forall i :: 0 <= i <= |base| ==> base[..i] !in d.files)
    && (forall a :: Plain(a) ==> base + [a] !in d.files)
    && (forall a, b :: Plain(a) && Plain(b) ==> base + [a, b] !in d.dirs)
    && (forall a, b :: Plain(a) && Plain(b) ==>
          ((base + [a, b] in d.files <==> StorageKey(a, b) in blobs)
           && (StorageKey(a, b) in blobs ==> d.files[base + [a, b]] == blobs[StorageKey(a, b)])))
  }

  lemma WayIsFree(base: seq<string>, d: Disk, blobs: map<string, Bytes>, a: string, b: string)
    requires Represents(base, d, blobs) && Plain(a) && Plain(b)
    ensures Parent(base + [a, b]) == base + [a]
    ensures !Blocked(d, base + [a])
  {
    assert (base + [a, b])[..|base| + 1] == base + [a];
    forall i | 0 <= i <= |base + [a]| ensures (base + [a])[..i] !in d.files {
      if i <= |base| { assert (base + [a])[..i] == base[..i]; } else { assert (base + [a])[..i] == base + [a]; }
    }
  }

  lemma WriteRefines(base: seq<string>, d: Disk, blobs: map<string, Bytes>, a: string, b: string, data: Bytes)
    requires Represents(base, d, blobs) && Plain(a) && Plain(b)
    ensures var (d', reply) := WriteAt(d, base + [a, b], data);
      reply == Done && Represents(base, d', blobs[StorageKey(a, b) := data])
  {
    hide Blocked, Plain, StorageKey;
    var place := base + [a, b];
    WayIsFree(base, d, blobs, a, b);
    var d' := WriteAt(d, place, data).0;
    assert |place| == |base| + 2;
    forall i | 0 <= i <= |base| ensures base[..i] !in d'.files { assert |base[..i]| < |place|; }
    forall x | Plain(x) ensures base + [x] !in d'.files { assert |base + [x]| < |place|; }
    forall x, y | Plain(x) && Plain(y) ensures base + [x, y] !in d'.dirs { assert |base + [x, y]| > |base + [a]|; }
    forall x, y | Plain(x) && Plain(y)
      ensures base + [x, y] == place <==> StorageKey(x, y) == StorageKey(a, b)
    {
      TwoPartUnique(x, y, a, b);
      assert (base + [x, y])[|base|] == x && (base + [x, y])[|base| + 1] == y;
      assert place[|base|] == a && place[|base| + 1] == b;
    }
  }

  lemma StepRefines(cwd: Dir, root: string, d: Disk, blobs: map<string, Bytes>, op: Op)
    requires Place(cwd, root) != [] && IsTwoPart(op.key) && Represents(Place(cwd, root), d, blobs)
    ensures DiskStep(cwd, root, d, op).1 == TableStep(blobs, op).1
    ensures Represents(Place(cwd, root), DiskStep(cwd, root, d, op).0, TableStep(blobs, op).0)
  {
    hide Place, SafePath, WriteAt, StorageKey, Plain, Blocked, Target;
    var a, b :| Plain(a) && Plain(b) && op.key == StorageKey(a, b);
    var base := Place(cwd, root);
    PathOfKey(cwd, root, op.key);
    TwoPartPlace(cwd, root, a, b);
    if op.Put? {
      WriteRefines(base, d, blobs, a, b, op.data);
    } else {
      WayIsFree(base, d, blobs, a, b);
    }
  }

  function DiskRun(cwd: Dir, root: string, d: Disk, ops: seq<Op>): (Disk, seq<Reply>) {
    if ops == [] then (d, [])
    else
      var (d', replies) := DiskRun(cwd, root, d, ops[..|ops| - 1]);
      var (d'', reply) := DiskStep(cwd, root, d', ops[|ops| - 1]);
      (d'', replies + [reply])
  }

  function TableRun(blobs: map<string, Bytes>, ops: seq<Op>): (map<string, Bytes>, seq<Reply>) {
    if ops == [] then (blobs, [])
    else
      var (t, replies) := TableRun(blobs, ops[..|ops| - 1]);
      var (t', reply) := TableStep(t, ops[|ops| - 1]);
      (t', replies + [reply])
  }

  // Over any run of puts and gets under two-part keys, the store on disk gives the replies the blob table gives.
  lemma {:induction false} RunRefines(cwd: Dir, root: string, d: Disk, blobs: map<string, Bytes>, ops: seq<Op>)
    requires Place(cwd, root) != [] && Represents(Place(cwd, root), d, blobs)
    requires forall op :: op in ops ==> IsTwoPart(op.key)
    ensures DiskRun(cwd, root, d, ops).1 == TableRun(blobs, ops).1
    ensures Represents(Place(cwd, root), DiskRun(cwd, root, d, ops).0, TableRun(blobs, ops).0)
  {
    hide Place, DiskStep, TableStep, Represents, IsTwoPart;
    if ops != [] {
      var n := |ops| - 1;
      RunRefines(cwd, root, d, blobs, ops[..n]);
      StepRefines(cwd, root, DiskRun(cwd, root, d, ops[..n]).0, TableRun(blobs, ops[..n]).0, ops[n]);
    }
  }

  lemma EmptyStoresCorrespond(base: seq<string>)
    ensures Represents(base, Disk(map[], {}), map[])
  {
  }

  /** The data of the last put under a key. */
  function LastPut(ops: seq<Op>, key: string): Option<Bytes> {
    if ops == [] then None
    else
      var last := ops[|ops| - 1];
      if last.Put? && last.key == key then Some(last.data) else LastPut(ops[..|ops| - 1], key)
  }

  lemma {:induction false} TableLoadsLastPut(blobs: map<string, Bytes>, ops: seq<Op>, key: string)
    ensures var reply := TableStep(TableRun(blobs, ops).0, Op.Get(key)).1;
      reply == if LastPut(ops, key).Some? then Loaded(LastPut(ops, key).value) else TableStep(blobs, Op.Get(key)).1
  {
    if ops != [] { TableLoadsLastPut(blobs, ops[..|ops| - 1], key); }
  }

  // After any run on a disk that starts empty, a get loads the data of the last put under its key, and finds
  // nothing exactly when there was none.
  lemma DiskLoadsLastPut(cwd: Dir, root: string, ops: seq<Op>, key: string)
    requires Place(cwd, root) != [] && IsTwoPart(key) && forall op :: op in ops ==> IsTwoPart(op.key)
    ensures DiskStep(cwd, root, DiskRun(cwd, root, Disk(map[], {}), ops).0, Op.Get(key)).1
      == if LastPut(ops, key).Some? then Loaded(LastPut(ops, key).value) else NoSuchKey
  {
    hide Place, DiskStep, Represents, IsTwoPart, DiskRun, TableRun, LastPut;
    EmptyStoresCorrespond(Place(cwd, root));
    RunRefines(cwd, root, Disk(map[], {}), map[], ops);
    StepRefines(cwd, root, DiskRun(cwd, root, Disk(map[], {}), ops).0, TableRun(map[], ops).0, Op.Get(key));
    TableLoadsLastPut(map[], ops, key);
  }
}
