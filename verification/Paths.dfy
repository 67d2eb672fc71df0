/** Slash-separated paths: the textual functions, and the component stack they compute with. */
module Paths {

  /** The parts between slashes; at least one, possibly empty. */
  function Split(s: string): (r: seq<string>)
    ensures r != []
    ensures forall i :: 0 <= i < |r| ==> '/' !in r[i]
  {
    if s == "" then [""]
    else
      var rest := Split(s[1..]);
      if s[0] == '/' then [""] + rest else [[s[0]] + rest[0]] + rest[1..]
  }

  function Join(cs: seq<string>): string {
    if cs == [] then "" else if |cs| == 1 then cs[0] else cs[0] + "/" + Join(cs[1..])
  }

  /** A component that stands for itself. */
  predicate Plain(c: string) {
    c != "" && c != "." && c != ".." && '/' !in c
  }

  predicate AllPlain(cs: seq<string>) {
    forall i :: 0 <= i < |cs| ==> Plain(cs[i])
  }

  /** One component on top of a stack. Above the root there is nothing to climb to; in a relative path a climb
      that finds no name to undo is kept. */
  function Push(rooted: bool, stack: seq<string>, c: string): seq<string> {
    if c == "" || c == "." then stack
    else if c != ".." then stack + [c]
    else if stack != [] && stack[|stack| - 1] != ".." then stack[..|stack| - 1]
    else if rooted then stack
    else stack + [c]
  }

  function Fold(rooted: bool, stack: seq<string>, cs: seq<string>): seq<string> {
    if cs == [] then stack else Push(rooted, Fold(rooted, stack, cs[..|cs| - 1]), cs[|cs| - 1])
  }

  predicate IsAbs(path: string) {
    path != "" && path[0] == '/'
  }

  function Clean(path: string): string {
    var cs := Fold(IsAbs(path), [], Split(path));
    if IsAbs(path) then "/" + Join(cs) else if cs == [] then "." else Join(cs)
  }

  /** Joining two elements skips a leading empty one. */
  function JoinTwo(a: string, b: string): string {
    if a != "" then Clean(a + "/" + b) else if b != "" then Clean(b) else ""
  }

  function Abs(cwd: string, path: string): string {
    if IsAbs(path) then Clean(path) else JoinTwo(cwd, path)
  }

  /** Where a path leads, as the stack of names below the root of the file system. */
  function Place(cwd: string, path: string): seq<string> {
    if IsAbs(path) then Fold(true, [], Split(path)) else Fold(true, [], Split(cwd + "/" + path))
  }

  // ---------- splitting and joining ----------

  lemma {:induction false} SplitConcat(a: string, b: string)
    ensures Split(a + "/" + b) == Split(a) + Split(b)
  {
    if a == "" {
      assert a + "/" + b == ['/'] + b;
    } else {
      assert (a + "/" + b)[1..] == a[1..] + "/" + b;
      SplitConcat(a[1..], b);
    }
  }

  lemma {:induction false} SplitOne(c: string)
    requires '/' !in c
    ensures Split(c) == [c]
  {
    if c != "" {
      assert c[0] in c && forall x :: x in c[1..] ==> x in c;
      SplitOne(c[1..]);
      assert [c[0]] + c[1..] == c;
    }
  }

  lemma {:induction false} SplitJoin(cs: seq<string>)
    requires cs != [] && forall i :: 0 <= i < |cs| ==> '/' !in cs[i]
    ensures Split(Join(cs)) == cs
  {
    SplitOne(cs[0]);
    if |cs| > 1 {
      SplitConcat(cs[0], Join(cs[1..]));
      SplitJoin(cs[1..]);
    }
  }

  lemma {:induction false} JoinConcat(a: seq<string>, b: seq<string>)
    requires a != [] && b != []
    ensures Join(a + b) == Join(a) + "/" + Join(b)
  {
    if |a| == 1 {
      assert (a + b)[1..] == b;
    } else {
      assert (a + b)[1..] == a[1..] + b;
      JoinConcat(a[1..], b);
      assert a[0] + "/" + (Join(a[1..]) + "/" + Join(b)) == a[0] + "/" + Join(a[1..]) + "/" + Join(b);
    }
  }

  // ---------- folding ----------

  lemma {:induction false} FoldConcat(rooted: bool, stack: seq<string>, a: seq<string>, b: seq<string>)
    ensures Fold(rooted, stack, a + b) == Fold(rooted, Fold(rooted, stack, a), b)
  {
    if b == [] {
      assert a + b == a;
    } else {
      assert (a + b)[..|a + b| - 1] == a + b[..|b| - 1];
      FoldConcat(rooted, stack, a, b[..|b| - 1]);
    }
  }

  lemma {:induction false} FoldPlain(rooted: bool, stack: seq<string>, cs: seq<string>)
    requires AllPlain(cs)
    ensures Fold(rooted, stack, cs) == stack + cs
  {
    if cs != [] {
      FoldPlain(rooted, stack, cs[..|cs| - 1]);
    }
  }

  lemma {:induction false} FoldRootedIsPlain(stack: seq<string>, cs: seq<string>)
    requires AllPlain(stack) && forall i :: 0 <= i < |cs| ==> '/' !in cs[i]
    ensures AllPlain(Fold(true, stack, cs))
  {
    if cs != [] {
      FoldRootedIsPlain(stack, cs[..|cs| - 1]);
    }
  }

  lemma {:induction false} FoldNoSlash(rooted: bool, cs: seq<string>)
    requires forall i :: 0 <= i < |cs| ==> '/' !in cs[i]
    ensures forall i :: 0 <= i < |Fold(rooted, [], cs)| ==> '/' !in Fold(rooted, [], cs)[i]
  {
    if cs != [] {
      FoldNoSlash(rooted, cs[..|cs| - 1]);
    }
  }

  // What is left of a relative path: climbs, then names; nothing empty and no "." remains.
  lemma {:induction false} FoldRelative(cs: seq<string>)
    requires forall i :: 0 <= i < |cs| ==> '/' !in cs[i]
    ensures forall i :: 0 <= i < |Fold(false, [], cs)| ==>
      var c := Fold(false, [], cs)[i]; Plain(c) || c == ".."
  {
    if cs != [] {
      FoldRelative(cs[..|cs| - 1]);
    }
  }

  lemma FoldSnoc(stack: seq<string>, cs: seq<string>, c: string)
    ensures Fold(true, stack, cs + [c]) == Push(true, Fold(true, stack, cs), c)
  {
    assert (cs + [c])[..|cs|] == cs;
  }

  // Following a relative path from a place leads where following its cleaned form leads.
  lemma {:induction false} FoldOfCleaned(stack: seq<string>, cs: seq<string>)
    requires AllPlain(stack) && forall i :: 0 <= i < |cs| ==> '/' !in cs[i]
    ensures Fold(true, stack, Fold(false, [], cs)) == Fold(true, stack, cs)
  {
    if cs != [] {
      var n := |cs| - 1;
      FoldOfCleaned(stack, cs[..n]);
      FoldRelative(cs[..n]);
      PushOfCleaned(stack, Fold(false, [], cs[..n]), cs[n]);
    }
  }

  // ".." cancels the name before it.
  lemma PushOfCleaned(stack: seq<string>, rel: seq<string>, c: string)
    requires forall i :: 0 <= i < |rel| ==> Plain(rel[i]) || rel[i] == ".."
    ensures Fold(true, stack, Push(false, rel, c)) == Push(true, Fold(true, stack, rel), c)
  {
    hide Fold;
    if Push(false, rel, c) == rel + [c] {
      FoldSnoc(stack, rel, c);
    } else if c == ".." {
      var shorter, last := rel[..|rel| - 1], rel[|rel| - 1];
      FoldSnoc(stack, shorter, last);
      assert shorter + [last] == rel;
      var under := Fold(true, stack, shorter);
      assert (under + [last])[..|under|] == under;
    }
  }

  lemma PlaceIsPlain(cwd: string, path: string)
    ensures AllPlain(Place(cwd, path))
  {
    FoldRootedIsPlain([], if IsAbs(path) then Split(path) else Split(cwd + "/" + path));
  }

  // ---------- the textual functions compute places ----------

  lemma CleanOfPlace(cs: seq<string>)
    requires AllPlain(cs)
    ensures Clean("/" + Join(cs)) == "/" + Join(cs)
  {
    SplitConcat("", Join(cs));
    assert "" + "/" + Join(cs) == "/" + Join(cs);
    var parts := Split(Join(cs));
    FoldConcat(true, [], [""], parts);
    FoldNothing([]);
    if cs == [] {
      assert parts == [""];
    } else {
      SplitJoin(cs);
      FoldPlain(true, [], cs);
      assert [] + cs == cs;
    }
  }

  lemma FoldNothing(stack: seq<string>)
    ensures Fold(true, stack, [""]) == stack == Fold(true, stack, ["."])
  {
    FoldSnoc(stack, [], "");
    FoldSnoc(stack, [], ".");
    assert [] + [""] == [""] && [] + ["."] == ["."];
  }

  lemma CleanRelative(cwd: string, path: string)
    requires IsAbs(cwd) && path != "" && !IsAbs(path)
    ensures !IsAbs(Clean(path)) && Clean(path) != ""
    ensures Fold(true, [], Split(cwd + "/" + Clean(path))) == Fold(true, [], Split(cwd + "/" + path))
  {
    var cs := Fold(false, [], Split(path));
    var base := Fold(true, [], Split(cwd));
    FoldNoSlash(false, Split(path));
    FoldRootedIsPlain([], Split(cwd));
    SplitConcat(cwd, path);
    SplitConcat(cwd, Clean(path));
    FoldConcat(true, [], Split(cwd), Split(path));
    FoldConcat(true, [], Split(cwd), Split(Clean(path)));
    FoldOfCleaned(base, Split(path));
    if cs == [] {
      SplitOne(".");
      FoldNothing(base);
    } else {
      SplitJoin(cs);
      FoldNonEmpty(Split(path));
    }
  }

  lemma {:induction false} FoldNonEmpty(cs: seq<string>)
    requires forall i :: 0 <= i < |cs| ==> '/' !in cs[i]
    ensures forall i :: 0 <= i < |Fold(false, [], cs)| ==> Fold(false, [], cs)[i] != ""
    ensures Fold(false, [], cs) != [] ==> Join(Fold(false, [], cs)) != "" && !IsAbs(Join(Fold(false, [], cs)))
  {
    if cs != [] {
      FoldNonEmpty(cs[..|cs| - 1]);
    }
    FoldNoSlash(false, cs);
    var r := Fold(false, [], cs);
    if r != [] { assert r[0] <= Join(r) && r[0][0] != '/'; }
  }

  // What a further component does to where a path leads: an empty one and "." nothing; ".." undoes the last name, and
  // at the root nothing; any other is a further name. The path "/" leads to the root.
  lemma PlaceOfStep(cwd: string, path: string, c: string)
    requires path != "" && '/' !in c
    ensures Place(cwd, path + "/" + c) ==
      if c == "" || c == "." then Place(cwd, path)
      else if c != ".." then Place(cwd, path) + [c]
      else if Place(cwd, path) == [] then []
      else Place(cwd, path)[..|Place(cwd, path)| - 1]
    ensures Place(cwd, "/") == []
  {
    PlaceIsPlain(cwd, path);
    var before := if IsAbs(path) then path else cwd + "/" + path;
    assert (cwd + "/" + path) + "/" + c == cwd + "/" + (path + "/" + c);
    SplitConcat(before, c);
    SplitOne(c);
    FoldSnoc([], Split(before), c);
    assert Split("/") == ["", ""];
    FoldNothing([]);
    FoldSnoc([], [""], "");
    assert [""] + [""] == ["", ""];
  }

  // A path that does not start at the root goes on from the directory it is followed in.
  lemma PlaceOfRelative(cwd: string, path: string)
    requires IsAbs(cwd) && !IsAbs(path)
    ensures Place(cwd, path) == Fold(true, Place("/", cwd), Split(path))
  {
    SplitConcat(cwd, path);
    FoldConcat(true, [], Split(cwd), Split(path));
  }

  lemma {:induction false} NoClimbOnlyGrows(stack: seq<string>, cs: seq<string>)
    requires ".." !in cs
    ensures stack <= Fold(true, stack, cs)
  {
    if cs != [] { NoClimbOnlyGrows(stack, cs[..|cs| - 1]); }
  }

  // A ".." between slashes is two dots in a row.
  lemma {:induction false} DotsStand(s: string) returns (i: nat)
    requires ".." in Split(s)
    ensures i + 1 < |s| && s[i] == '.' && s[i + 1] == '.'
  {
    if ".." in Split(s[1..]) {
      i := DotsStand(s[1..]);
      i := i + 1;
    } else {
      i := 0;
      FirstPart(s[1..]);
      assert Split(s)[0] == ".." == [s[0]] + Split(s[1..])[0];
      assert s[0] == ".."[0] && Split(s[1..])[0] == ".."[1..];
    }
  }

  lemma FirstPart(s: string)
    ensures Split(s)[0] <= s
  {
  }

  // The absolute form of a path is its place, written out.
  lemma AbsIsPlace(cwd: string, path: string)
    requires IsAbs(cwd)
    ensures Abs(cwd, path) == "/" + Join(Place(cwd, path))
  {
    assert IsAbs(cwd + "/" + path);
  }

  // Cleaning a path does not change where it leads.
  lemma CleanKeepsPlace(cwd: string, path: string)
    requires IsAbs(cwd) && path != ""
    ensures Abs(cwd, Clean(path)) == "/" + Join(Place(cwd, path))
  {
    if IsAbs(path) {
      PlaceIsPlain(cwd, path);
      CleanOfPlace(Place(cwd, path));
      assert IsAbs(Clean(path));
    } else {
      CleanRelative(cwd, path);
      AbsIsPlace(cwd, Clean(path));
    }
  }
}
