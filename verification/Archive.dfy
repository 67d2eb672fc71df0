/** What a module archive holds, the limits the writer puts on it, and its two readers. */
module Archive {
  import opened Model
  import Paths

  const MAX_UPLOAD_SIZE: int := 50 * 1024 * 1024
  const MAX_FILE_COUNT: int := 10000
  const MAX_FILE_SIZE: int := 10 * 1024 * 1024
  const REST_READ_LIMIT: int := 10 * 1024 * 1024

  datatype File = File(path: string, content: Bytes)

  /** One archive member as the library presents it: the size its header declares, and its body, which is
      None when opening or reading the member fails. */
  datatype Entry = Entry(name: string, declaredSize: nat, body: Option<Bytes>)

  /** The library functions the registry relies on: SHA-256 in hexadecimal, and writing and reading an
      archive. */
  datatype Codec = Codec(
    hash: Bytes -> string,
    encode: seq<File> -> Option<Bytes>,
    decode: Bytes -> Option<seq<Entry>>)

  predicate IsDigest(s: string) {
    |s| == 64 && forall i :: 0 <= i < |s| ==> '0' <= s[i] <= '9' || 'a' <= s[i] <= 'f'
  }

  function EntriesOf(files: seq<File>): seq<Entry> {
    seq(|files|, i requires 0 <= i < |files| => Entry(files[i].path, |files[i].content|, Some(files[i].content)))
  }

  /** What is assumed of the library: digests have their form, and an archive reads back as it was written. */
  ghost predicate Lawful(c: Codec) {
    && (forall b: Bytes :: IsDigest(c.hash(b)))
    && (forall fs: seq<File> :: c.encode(fs).Some? ==> c.decode(c.encode(fs).value) == Some(EntriesOf(fs)))
  }

  /** No two of these contents share a digest. There are more contents than digests, so this can only be asked
      of particular contents; it is assumed only where a statement says so, of those it names. */
  ghost predicate NoCollision(c: Codec, contents: set<Bytes>) {
    forall b, b' :: b in contents && b' in contents && c.hash(b) == c.hash(b') ==> b == b'
  }

  // ---------- the writer's limits ----------

  predicate Contains(s: string, sub: string) {
    exists i :: 0 <= i <= |s| && sub <= s[i..]
  }

  predicate PathOk(p: string) {
    p != "" && p[0] != '/' && !Contains(p, "\\") && !Contains(p, "..")
  }

  // A path is accepted exactly when it has characters, does not start with a slash, and holds neither a backslash nor
  // two dots in a row.
  lemma PathOkExact(p: string)
    ensures PathOk(p) <==>
      && p != "" && p[0] != '/'
      && (forall i :: 0 <= i < |p| ==> p[i] != '\\')
      && (forall i :: 0 <= i < |p| - 1 ==> !(p[i] == '.' && p[i + 1] == '.'))
  {
    if Contains(p, "\\") {
      var i :| 0 <= i <= |p| && "\\" <= p[i..];
      assert p[i] == p[i..][0] == "\\"[0];
    }
    if Contains(p, "..") {
      var i :| 0 <= i <= |p| && ".." <= p[i..];
      assert p[i] == p[i..][0] == ".."[0] && p[i + 1] == p[i..][1] == ".."[1];
    }
    if i :| 0 <= i < |p| && p[i] == '\\' { assert "\\" <= p[i..]; }
    if i :| 0 <= i < |p| - 1 && p[i] == '.' && p[i + 1] == '.' { assert ".." <= p[i..]; }
  }

  // Followed from any directory, an accepted path leads into that directory and never above it.
  lemma AcceptedPathStaysInside(cwd: string, p: string)
    requires PathOk(p) && Paths.IsAbs(cwd)
    ensures Paths.Place("/", cwd) <= Paths.Place(cwd, p)
    ensures forall i :: 0 <= i < |Paths.Split(p)| ==> Paths.Split(p)[i] != ".."
  {
    hide PathOk;
    PathOkExact(p);
    if ".." in Paths.Split(p) {
      var i := Paths.DotsStand(p);
    }
    Paths.PlaceOfRelative(cwd, p);
    Paths.NoClimbOnlyGrows(Paths.Place("/", cwd), Paths.Split(p));
  }

  function TotalSize(files: seq<File>): nat {
    if files == [] then 0 else TotalSize(files[..|files| - 1]) + |files[|files| - 1].content|
  }

  /** Every bound the writer checks, as one condition on the whole list. */
  predicate Acceptable(files: seq<File>) {
    && |files| <= MAX_FILE_COUNT
    && (forall i :: 0 <= i < |files| ==> PathOk(files[i].path) && |files[i].content| <= MAX_FILE_SIZE)
    && TotalSize(files) <= MAX_UPLOAD_SIZE
  }

  // The limits in figures. The total is at least each file, and adds up over the files.
  lemma AcceptableExact(files: seq<File>)
    ensures Acceptable(files) <==>
      && |files| <= 10_000
      && (forall i :: 0 <= i < |files| ==> PathOk(files[i].path) && |files[i].content| <= 10_485_760)
      && TotalSize(files) <= 52_428_800
  {
  }

  lemma {:induction false} TotalSizeOfPrefix(files: seq<File>, n: nat)
    requires n <= |files|
    ensures TotalSize(files[..n]) <= TotalSize(files)
  {
    if n == |files| {
      assert files[..n] == files;
    } else {
      assert files[..|files| - 1][..n] == files[..n];
      TotalSizeOfPrefix(files[..|files| - 1], n);
    }
  }

  /** The early exit of the loop decides exactly what the check of the whole list decides. */
  method ValidateFiles(files: seq<File>) returns (ok: bool)
    ensures ok <==> Acceptable(files)
  {
    if |files| > MAX_FILE_COUNT {
      return false;
    }
    var totalSize := 0;
    for i := 0 to |files|
      invariant totalSize == TotalSize(files[..i]) <= MAX_UPLOAD_SIZE
      invariant forall j :: 0 <= j < i ==> PathOk(files[j].path) && |files[j].content| <= MAX_FILE_SIZE
    {
      var f := files[i];
      if f.path == "" || f.path[0] == '/' || Contains(f.path, "\\") || Contains(f.path, "..") {
        return false;
      }
      if |f.content| > MAX_FILE_SIZE {
        return false;
      }
      totalSize := totalSize + |f.content|;
      assert files[..i + 1][..i] == files[..i];
      if totalSize > MAX_UPLOAD_SIZE {
        TotalSizeOfPrefix(files, i + 1);
        return false;
      }
    }
    assert files[..|files|] == files;
    return true;
  }

  lemma {:induction false} TotalSizeConcat(a: seq<File>, b: seq<File>)
    ensures TotalSize(a + b) == TotalSize(a) + TotalSize(b)
  {
    if b == [] {
      assert a + b == a;
    } else {
      assert (a + b)[..|a + b| - 1] == a + b[..|b| - 1];
      TotalSizeConcat(a, b[..|b| - 1]);
    }
  }

  lemma SizeWithout(b: seq<File>, k: nat)
    requires k < |b|
    ensures TotalSize(b) == TotalSize(b[..k] + b[k + 1..]) + |b[k].content|
    ensures multiset(b) == multiset(b[..k] + b[k + 1..]) + multiset{b[k]}
  {
    hide TotalSize;
    assert b == b[..k] + [b[k]] + b[k + 1..] && b[..k + 1] == b[..k] + [b[k]];
    TotalSizeConcat(b[..k], [b[k]]);
    TotalSizeConcat(b[..k + 1], b[k + 1..]);
    TotalSizeConcat(b[..k], b[k + 1..]);
    SizeOfOne(b[k]);
  }

  lemma SizeOfOne(f: File)
    ensures TotalSize([f]) == |f.content|
  {
    assert [f][..0] == [];
  }

  lemma {:induction false} TotalSizeOfPermutation(a: seq<File>, b: seq<File>)
    requires multiset(a) == multiset(b)
    ensures TotalSize(a) == TotalSize(b)
  {
    if a == [] {
      assert |multiset(b)| == 0;
    } else {
      var n := |a| - 1;
      assert a == a[..n] + [a[n]];
      assert a[n] in multiset(b);
      var k :| 0 <= k < |b| && b[k] == a[n];
      var rest := b[..k] + b[k + 1..];
      SizeWithout(b, k);
      assert multiset(a[..n]) == multiset(a) - multiset{a[n]};
      assert multiset(rest) == multiset(b) - multiset{b[k]};
      TotalSizeOfPermutation(a[..n], rest);
    }
  }

  // The order in which the files of an upload are listed does not decide whether it is accepted.
  lemma AcceptanceIgnoresOrder(a: seq<File>, b: seq<File>)
    requires multiset(a) == multiset(b)
    ensures Acceptable(a) <==> Acceptable(b)
  {
    TotalSizeOfPermutation(a, b);
    assert |a| == |multiset(a)| == |b|;
    forall i | 0 <= i < |a| ensures a[i] in b { assert a[i] in multiset(b); }
    forall i | 0 <= i < |b| ensures b[i] in a { assert b[i] in multiset(a); }
  }

  // ---------- the download reader ----------

  predicate EntryReadable(e: Entry) {
    e.declaredSize <= MAX_FILE_SIZE && e.body.Some? && |e.body.value| <= MAX_FILE_SIZE
  }

  function FilesOf(es: seq<Entry>): seq<File>
    requires forall i :: 0 <= i < |es| ==> es[i].body.Some?
  {
    seq(|es|, i requires 0 <= i < |es| => File(es[i].name, es[i].body.value))
  }

  predicate Unpackable(es: seq<Entry>) {
    && (forall i :: 0 <= i < |es| ==> EntryReadable(es[i]))
    && TotalSize(FilesOf(es)) <= MAX_UPLOAD_SIZE
  }

  function Unpack(c: Codec, data: Bytes): Option<seq<File>> {
    match c.decode(data)
    case None => None
    case Some(es) => if Unpackable(es) then Some(FilesOf(es)) else None
  }

  method UnzipFiles(c: Codec, data: Bytes) returns (r: Option<seq<File>>)
    ensures r == Unpack(c, data)
  {
    var archive := c.decode(data);
    if archive.None? {
      return None;
    }
    var es := archive.value;
    var files: seq<File> := [];
    var totalSize := 0;
    for i := 0 to |es|
      invariant |files| == i
      invariant forall j :: 0 <= j < i ==> EntryReadable(es[j]) && files[j] == File(es[j].name, es[j].body.value)
      invariant totalSize == TotalSize(files) <= MAX_UPLOAD_SIZE
    {
      var e := es[i];
      if e.declaredSize > MAX_FILE_SIZE || e.body.None? {
        return None;
      }
      // The reader stops one byte past the limit, which is enough to see that the limit is exceeded.
      var content := if |e.body.value| > MAX_FILE_SIZE + 1 then e.body.value[..MAX_FILE_SIZE + 1] else e.body.value;
      if |content| > MAX_FILE_SIZE {
        return None;
      }
      totalSize := totalSize + |content|;
      var longer := files + [File(e.name, content)];
      assert longer[..i] == files;
      if totalSize > MAX_UPLOAD_SIZE {
        if Unpackable(es) {
          assert FilesOf(es)[..i + 1] == longer;
          TotalSizeOfPrefix(FilesOf(es), i + 1);
        }
        return None;
      }
      files := longer;
    }
    assert files == FilesOf(es);
    return Some(files);
  }

  // The reader returns files exactly for bytes that are an archive whose members all open, none declaring or holding
  // more than ten megabytes, and that hold no more than fifty together; and it returns their names and bodies in order.
  lemma UnpackExact(c: Codec, data: Bytes)
    ensures Unpack(c, data).Some? <==>
      && c.decode(data).Some?
      && var es := c.decode(data).value;
         && (forall i :: 0 <= i < |es| ==>
               es[i].declaredSize <= 10_485_760 && es[i].body.Some? && |es[i].body.value| <= 10_485_760)
         && TotalSize(FilesOf(es)) <= 52_428_800
    ensures Unpack(c, data).Some? ==>
      var files, es := Unpack(c, data).value, c.decode(data).value;
      |files| == |es| && forall i :: 0 <= i < |es| ==>
        Some(files[i].content) == es[i].body && files[i].path == es[i].name
  {
  }

  // What the writer accepts and manages to archive, the download reader returns, file by file and in order.
  lemma UnpackInvertsEncode(c: Codec, files: seq<File>)
    requires Lawful(c) && Acceptable(files) && c.encode(files).Some?
    ensures Unpack(c, c.encode(files).value) == Some(files)
  {
    assert FilesOf(EntriesOf(files)) == files;
  }

  // ---------- the REST reader ----------

  datatype FileAnswer = BadRequest | Unreadable | FileNotFound | Found(path: string, content: Bytes)

  /** The position of the first member with a name, or the length of the list when there is none. */
  function FirstNamed(es: seq<Entry>, name: string): (k: nat)
    ensures k <= |es|
    ensures k < |es| ==> es[k].name == name
    ensures forall j :: 0 <= j < k ==> es[j].name != name
  {
    if es == [] || es[0].name == name then 0 else 1 + FirstNamed(es[1..], name)
  }

  function RestAnswer(c: Codec, data: Bytes, path: string): FileAnswer {
    if path == "" then BadRequest
    else match c.decode(data)
      case None => Unreadable
      case Some(es) =>
        var k := FirstNamed(es, path);
        if k == |es| then FileNotFound
        else if es[k].body.None? then Unreadable
        else
          var b := es[k].body.value;
          Found(path, if |b| > REST_READ_LIMIT then b[..REST_READ_LIMIT] else b)
  }

  function RestListing(c: Codec, data: Bytes): Option<seq<(string, nat)>> {
    match c.decode(data)
    case None => None
    case Some(es) => Some(seq(|es|, i requires 0 <= i < |es| => (es[i].name, es[i].declaredSize)))
  }

  method GetFileContent(c: Codec, data: Bytes, path: string) returns (r: FileAnswer)
    ensures r == RestAnswer(c, data, path)
  {
    if path == "" {
      return BadRequest;
    }
    var archive := c.decode(data);
    if archive.None? {
      return Unreadable;
    }
    var es := archive.value;
    for i := 0 to |es|
      invariant forall j :: 0 <= j < i ==> es[j].name != path
    {
      if es[i].name == path {
        assert FirstNamed(es, path) == i;
        match es[i].body
        case None => return Unreadable;
        case Some(b) => return Found(path, if |b| > REST_READ_LIMIT then b[..REST_READ_LIMIT] else b);
      }
    }
    return FileNotFound;
  }

  method ListFiles(c: Codec, data: Bytes) returns (r: Option<seq<(string, nat)>>)
    ensures r == RestListing(c, data)
  {
    var archive := c.decode(data);
    if archive.None? {
      return None;
    }
    var es := archive.value;
    var files: seq<(string, nat)> := [];
    for i := 0 to |es|
      invariant |files| == i
      invariant forall j :: 0 <= j < i ==> files[j] == (es[j].name, es[j].declaredSize)
    {
      files := files + [(es[i].name, es[i].declaredSize)];
    }
    assert files == RestListing(c, data).value;
    return Some(files);
  }

  /** Bytes that the writer may have stored: the archive of an accepted list, within the size limit. */
  ghost predicate IsArchive(c: Codec, data: Bytes) {
    |data| <= MAX_UPLOAD_SIZE && exists fs: seq<File> :: Acceptable(fs) && c.encode(fs) == Some(data)
  }

  // On every stored archive the two readers agree: the REST answer for a path is the first downloaded file
  // of that path, complete, and not-found exactly when there is none; the listing shows the downloaded paths
  // in order, with the sizes of the downloaded contents.
  lemma ReadersAgree(c: Codec, data: Bytes, path: string)
    requires Lawful(c) && IsArchive(c, data) && path != ""
    ensures Unpack(c, data).Some? && RestListing(c, data).Some?
    ensures var files := Unpack(c, data).value;
      && (RestAnswer(c, data, path) == FileNotFound <==> forall i :: 0 <= i < |files| ==> files[i].path != path)
      && (forall k :: 0 <= k < |files| && files[k].path == path && (forall j :: 0 <= j < k ==> files[j].path != path)
            ==> RestAnswer(c, data, path) == Found(path, files[k].content))
    ensures var files, listing := Unpack(c, data).value, RestListing(c, data).value;
      |listing| == |files| && forall i :: 0 <= i < |files| ==> listing[i] == (files[i].path, |files[i].content|)
  {
    hide PathOk, TotalSize, Unpack;
    var fs: seq<File> :| Acceptable(fs) && c.encode(fs) == Some(data);
    UnpackInvertsEncode(c, fs);
    assert c.decode(data).value == EntriesOf(fs);
    assert forall i :: 0 <= i < |fs| ==> EntriesOf(fs)[i].name == fs[i].path;
  }
}
