/** base/path_util.cc: splitting and joining paths, with the splitter of gbase/strings/split_internal.h, and
CreateDirsRecursively of base/env_util.cc on top of it.
*/
module Paths {

  // ----- splitting

  /** The first slash of s, or its end. */
  function FindSlash(s: string): (k: nat)
    ensures k <= |s| && (forall j :: 0 <= j < k ==> s[j] != '/') && (k < |s| ==> s[k] == '/')
  {
    if s == "" || s[0] == '/' then 0 else FindSlash(s[1..]) + 1
  }

  /** What lies between the slashes, empty pieces included. */
  function Pieces(s: string): seq<string>
    decreases |s|
  {
    var k := FindSlash(s);
    if k == |s| then [s] else [s[..k]] + Pieces(s[k + 1..])
  }

  function SkipEmpty(pieces: seq<string>): seq<string> {
    if pieces == [] then []
    else (if pieces[0] == "" then [] else [pieces[0]]) + SkipEmpty(pieces[1..])
  }

  /** The segments of a path: the root, if the path is absolute, and the non-empty pieces. */
  function Segments(path: string): seq<string> {
    if path == "" then [] else (if path[0] == '/' then ["/"] else []) + SkipEmpty(Pieces(path))
  }

  lemma SkipEmptyStep(p: string, rest: seq<string>)
    ensures SkipEmpty([p] + rest) == (if p == "" then [] else [p]) + SkipEmpty(rest)
  {
    assert ([p] + rest)[1..] == rest;
  }

  lemma NextPiece(s: string)
    ensures var k := FindSlash(s);
            SkipEmpty(Pieces(s)) ==
            (if s[..k] == "" then [] else [s[..k]]) + (if k == |s| then [] else SkipEmpty(Pieces(s[k + 1..])))
  {
    var k := FindSlash(s);
    if k == |s| {
      assert s[..k] == s && [s] + [] == [s];
      SkipEmptyStep(s, []);
    } else {
      SkipEmptyStep(s[..k], Pieces(s[k + 1..]));
    }
  }

  /** The split iterator: one piece after the other until a piece ends at the end of the text. */
  method Split(text: string) returns (pieces: seq<string>)
    ensures pieces == SkipEmpty(Pieces(text))
  {
    hide SkipEmpty, Pieces;
    pieces := [];
    var rest, done := text, false;
    while !done
      invariant pieces + (if done then [] else SkipEmpty(Pieces(rest))) == SkipEmpty(Pieces(text))
      decreases |rest|, !done
    {
      var k := FindSlash(rest);
      var piece := rest[..k];
      done := k == |rest|;
      NextPiece(rest);
      if piece != "" {
        pieces := pieces + [piece];
      }
      rest := if done then "" else rest[k + 1..];
    }
  }

  method SplitPath(path: string) returns (segments: seq<string>)
    ensures segments == Segments(path)
  {
    if path == "" {
      return [];
    }
    segments := [];
    if path[0] == '/' {
      segments := segments + ["/"];
    }
    var pieces := Split(path);
    for i := 0 to |pieces|
      invariant segments == (if path[0] == '/' then ["/"] else []) + pieces[..i]
    {
      segments := segments + [pieces[i]];
    }
  }

  // ----- joining

  function JoinPathSegments(a: string, b: string): string
    requires a != "" && b != "" && b[0] != '/'
  {
    if a[|a| - 1] == '/' then a + b else a + "/" + b
  }

  lemma FirstSlashIs(s: string, k: nat)
    requires k < |s| && s[k] == '/' && forall j :: 0 <= j < k ==> s[j] != '/'
    ensures FindSlash(s) == k
  {
    var f := FindSlash(s);
  }

  lemma PiecesAtSlash(s: string, k: nat)
    requires k < |s| && s[k] == '/' && forall j :: 0 <= j < k ==> s[j] != '/'
    ensures Pieces(s) == [s[..k]] + Pieces(s[k + 1..])
  {
    FirstSlashIs(s, k);
    hide FindSlash;
  }

  lemma PiecesOfName(s: string)
    requires '/' !in s
    ensures Pieces(s) == [s]
  {
    var k := FindSlash(s);
    assert forall j :: 0 <= j < |s| ==> s[j] in s;
  }

  lemma {:induction false} PiecesOfJoin(a: string, b: string)
    ensures Pieces(a + "/" + b) == Pieces(a) + Pieces(b)
    decreases |a|
  {
    hide Pieces;
    var k, s := FindSlash(a), a + "/" + b;
    hide FindSlash;
    if k == |a| {
      assert s[..k] == a[..k] == a && s[k + 1..] == b;
      PiecesAtSlash(s, k);
      PiecesOfName(a);
    } else {
      assert s[..k] == a[..k] && s[k + 1..] == a[k + 1..] + "/" + b;
      PiecesAtSlash(s, k);
      PiecesAtSlash(a, k);
      PiecesOfJoin(a[k + 1..], b);
    }
  }

  lemma {:induction false} SkipEmptyAppends(p: seq<string>, q: seq<string>)
    ensures SkipEmpty(p + q) == SkipEmpty(p) + SkipEmpty(q)
  {
    if p == [] {
      assert p + q == q;
    } else {
      hide SkipEmpty;
      SkipEmptyAppends(p[1..], q);
      SkipEmptyStep(p[0], p[1..] + q);
      SkipEmptyStep(p[0], p[1..]);
      assert p + q == [p[0]] + (p[1..] + q) && p == [p[0]] + p[1..];
    }
  }

  /** The names in a joined path are those of both parts, with or without a slash at the end of the first. */
  lemma NamesOfJoin(a: string, b: string)
    ensures SkipEmpty(Pieces(a + "/" + b)) == SkipEmpty(Pieces(a)) + SkipEmpty(Pieces(b))
    ensures SkipEmpty(Pieces(a + "/")) == SkipEmpty(Pieces(a))
  {
    PiecesOfJoin(a, b);
    PiecesOfJoin(a, "");
    PiecesOfName("");
    assert a + "/" + "" == a + "/";
    SkipEmptyStep("", []);
    hide Pieces;
    SkipEmptyAppends(Pieces(a), Pieces(b));
    SkipEmptyAppends(Pieces(a), [""]);
    assert [""] + [] == [""];
  }

  /** Splitting undoes joining. */
  lemma SplitUndoesJoin(a: string, b: string)
    requires a != "" && b != "" && b[0] != '/'
    ensures Segments(JoinPathSegments(a, b)) == Segments(a) + Segments(b)
  {
    hide SkipEmpty, Pieces;
    var n := |a| - 1;
    if a[n] == '/' {
      assert a == a[..n] + "/" && a + b == a[..n] + "/" + b;
      NamesOfJoin(a[..n], b);
    } else {
      NamesOfJoin(a, b);
    }
  }

  // ----- segments

  predicate IsName(s: string) { s != "" && '/' !in s }

  /** Names, the first of which may be the root instead. */
  predicate WellFormed(segments: seq<string>) {
    forall i :: 0 <= i < |segments| ==> IsName(segments[i]) || (i == 0 && segments[i] == "/")
  }

  lemma {:induction false} PiecesAreNames(s: string)
    ensures forall p :: p in SkipEmpty(Pieces(s)) ==> IsName(p)
    decreases |s|
  {
    var k := FindSlash(s);
    if k < |s| {
      PiecesAreNames(s[k + 1..]);
      assert Pieces(s)[1..] == Pieces(s[k + 1..]);
    } else {
      assert s[..k] == s;
      assert SkipEmpty([s]) == (if s == "" then [] else [s]) + SkipEmpty([]);
    }
  }

  /** Whatever the path: its segments are names, after the root if it is absolute. */
  lemma SegmentsAreWellFormed(path: string)
    ensures WellFormed(Segments(path))
    ensures path != "" && path[0] == '/' <==> Segments(path) != [] && Segments(path)[0] == "/"
  {
    PiecesAreNames(path);
    if path != "" {
      var names := SkipEmpty(Pieces(path));
      forall i | 0 <= i < |names| ensures IsName(names[i]) {
        assert names[i] in names;
      }
    }
  }

  /** The partial path after some segments, as CreateDirsRecursively builds it. */
  function PathOf(segments: seq<string>): (r: string)
    requires WellFormed(segments)
    ensures r == "" <==> segments == []
  {
    if segments == [] then ""
    else
      var before, last := PathOf(segments[..|segments| - 1]), segments[|segments| - 1];
      if before == "" then last else JoinPathSegments(before, last)
  }

  lemma SegmentsOfName(s: string)
    requires IsName(s) || s == "/"
    ensures Segments(s) == [s]
  {
    if s == "/" {
      FirstSlashIs(s, 0);
      assert Pieces(s) == [""] + Pieces("");
      assert SkipEmpty(["", ""]) == SkipEmpty([""]);
    } else {
      var k := FindSlash(s);
      assert k == |s|;
      assert SkipEmpty([s]) == [s] + SkipEmpty([]);
    }
  }

  /** Splitting a partial path gives back the segments it was built from. */
  lemma {:induction false} SplitUndoesPathOf(segments: seq<string>)
    requires WellFormed(segments)
    ensures Segments(PathOf(segments)) == segments
  {
    if segments != [] {
      var rest, last := segments[..|segments| - 1], segments[|segments| - 1];
      SplitUndoesPathOf(rest);
      SegmentsOfName(last);
      if rest != [] {
        SplitUndoesJoin(PathOf(rest), last);
        assert segments == rest + [last];
      }
    }
  }

  /** A path without doubled slashes, and without a slash at the end unless it is the root. */
  predicate Normal(path: string) {
    && (forall i :: 0 <= i < |path| - 1 && path[i] == '/' ==> path[i + 1] != '/')
    && (path == "/" || path == "" || path[|path| - 1] != '/')
  }

  lemma LastSlash(path: string) returns (k: int)
    ensures -1 <= k < |path| && '/' !in path[k + 1..] && (k >= 0 ==> path[k] == '/')
  {
    k := |path| - 1;
    while k >= 0 && path[k] != '/'
      invariant -1 <= k < |path| && '/' !in path[k + 1..]
    {
      assert path[k..] == [path[k]] + path[k + 1..];
      k := k - 1;
    }
  }

  lemma PathOfPlus(segments: seq<string>, name: string)
    requires WellFormed(segments) && segments != [] && IsName(name)
    ensures WellFormed(segments + [name])
    ensures PathOf(segments) != "" && PathOf(segments + [name]) == JoinPathSegments(PathOf(segments), name)
  {
    assert (segments + [name])[..|segments|] == segments;
    assert name[0] in name;
  }

  lemma PathOfOne(s: string)
    requires IsName(s) || s == "/"
    ensures WellFormed([s]) && PathOf([s]) == s
  {
    assert [s][..0] == [];
  }

  lemma CutAtLastSlash(path: string, k: nat)
    requires Normal(path) && k < |path| && path[k] == '/' && '/' !in path[k + 1..] && path != "/"
    ensures IsName(path[k + 1..]) && path == path[..k] + "/" + path[k + 1..]
    ensures Normal(path[..k]) && (k > 0 ==> path[k - 1] != '/')
  {
    assert path[|path| - 1] != '/';
  }

  /** A normal path is the path of its segments. */
  lemma {:induction false} NormalPathsRoundTrip(path: string)
    requires Normal(path)
    ensures WellFormed(Segments(path)) && PathOf(Segments(path)) == path
    decreases |path|
  {
    hide Segments, PathOf, WellFormed, Normal;
    SegmentsAreWellFormed(path);
    var k := LastSlash(path);
    if path == "" {
      SegmentsOfEmpty();
    } else if path == "/" || k == -1 {
      assert path[0..] == path;
      SegmentsOfName(path);
      PathOfOne(path);
    } else {
      var q, b := path[..k], path[k + 1..];
      CutAtLastSlash(path, k);
      SegmentsOfName(b);
      if k == 0 {
        SegmentsOfName("/");
        SplitUndoesJoin("/", b);
        PathOfOne("/");
        PathOfPlus(["/"], b);
        assert path == JoinPathSegments("/", b);
      } else {
        NormalPathsRoundTrip(q);
        assert q[k - 1] == path[k - 1];
        SplitUndoesJoin(q, b);
        assert path == JoinPathSegments(q, b);
        SegmentsOfEmpty();
        PathOfPlus(Segments(q), b);
      }
    }
  }

  lemma SegmentsOfEmpty()
    ensures Segments("") == [] && WellFormed([]) && PathOf([]) == ""
  {
  }

  lemma {:induction false} PathOfIsNormal(segments: seq<string>)
    requires WellFormed(segments)
    ensures Normal(PathOf(segments))
  {
    if segments != [] {
      var rest, last := segments[..|segments| - 1], segments[|segments| - 1];
      PathOfIsNormal(rest);
      if rest != [] {
        JoinIsNormal(PathOf(rest), last);
      } else if last != "/" {
        assert forall i :: 0 <= i < |last| ==> last[i] in last;
      }
    }
  }

  lemma JoinIsNormal(a: string, b: string)
    requires Normal(a) && a != "" && IsName(b)
    ensures Normal(JoinPathSegments(a, b))
  {
    assert forall i :: 0 <= i < |b| ==> b[i] in b;
    var j := JoinPathSegments(a, b);
    assert j[|j| - 1] == b[|b| - 1];
  }

  /** Splitting a path and joining its segments again gives the path itself exactly if it is normal. */
  lemma RoundTripIffNormal(path: string)
    ensures WellFormed(Segments(path)) && (PathOf(Segments(path)) == path <==> Normal(path))
  {
    SegmentsAreWellFormed(path);
    PathOfIsNormal(Segments(path));
    if Normal(path) {
      NormalPathsRoundTrip(path);
    }
  }

  // ----- creating directories

  datatype Status = OK | NotFound | AlreadyPresent | IOError

  /** The file system: the paths that lead to a directory, symbolic links followed, and those that lead to something
      else. Any call may fail; `refusals` are the paths of calls that failed although the file system would have
      allowed them, and `otherNames` further names of directories that were created. */
  class Env {
    var dirs: set<string>
    var others: set<string>
    ghost var created: seq<string>
    ghost var otherNames: set<string>
    ghost var refusals: seq<string>

    ghost predicate Valid()
      reads this
    {
      dirs !! others && otherNames <= dirs
    }

    /** stat(2). */
    method IsDirectory(path: string) returns (s: Status, isDir: bool)
      requires Valid()
      modifies `refusals
      ensures s == OK ==> path in dirs + others && (isDir <==> path in dirs)
      ensures path !in dirs + others ==> s != OK
      ensures refusals == old(refusals) + if s != OK && path in dirs + others then [path] else []
    {
      s := *;
      if path !in dirs && path !in others {
        s := NotFound;
      } else if s != OK {
        refusals := refusals + [path];
      }
      isDir := path in dirs;
    }

    /** realpath(3): another name of the same thing. */
    method Canonicalize(path: string) returns (s: Status, target: string)
      requires Valid()
      modifies `refusals
      ensures s == OK ==> path in dirs + others && target in dirs + others && (target in dirs <==> path in dirs)
      ensures refusals == old(refusals) + if s != OK && path in dirs + others then [path] else []
    {
      s, target := *, *;
      if !(path in dirs && target in dirs) && !(path in others && target in others) {
        s := NotFound;
        target := path;
      }
      if s != OK && path in dirs + others {
        refusals := refusals + [path];
      }
    }

    /** mkdir(2): what it creates may be seen under other names, too. */
    method CreateDir(path: string) returns (s: Status)
      requires Valid()
      modifies this`dirs, this`created, this`otherNames, this`refusals
      ensures Valid()
      ensures s == OK ==> path !in old(dirs) + others && created == old(created) + [path]
      ensures s == OK ==> old(otherNames) <= otherNames && dirs == old(dirs) + {path} + otherNames
      ensures s != OK ==> dirs == old(dirs) && created == old(created) && otherNames == old(otherNames)
      ensures path in old(dirs) + others ==> s == AlreadyPresent
      ensures refusals == old(refusals) + if s != OK && path !in old(dirs) + others then [path] else []
    {
      s := *;
      if path in dirs || path in others {
        return AlreadyPresent;
      }
      if s == OK {
        var aliases: set<string> := *;
        dirs := dirs + {path} + (aliases - others);
        otherNames := otherNames + (aliases - others);
        created := created + [path];
      } else {
        refusals := refusals + [path];
      }
    }
  }

  /** The partial path after k segments. */
  function Prefix(segments: seq<string>, k: nat): string
    requires WellFormed(segments) && k <= |segments|
  {
    PathOf(segments[..k])
  }

  lemma PrefixGrows(segments: seq<string>, k: nat)
    requires WellFormed(segments) && k < |segments|
    ensures WellFormed(segments[..k]) && WellFormed(segments[..k + 1])
    ensures k > 0 ==> Prefix(segments, k) != "" && segments[k] != "" && segments[k][0] != '/'
    ensures Prefix(segments, k + 1) ==
            if Prefix(segments, k) == "" then segments[k] else JoinPathSegments(Prefix(segments, k), segments[k])
  {
    assert segments[..k + 1][..k] == segments[..k];
    if k > 0 {
      assert segments[k][0] in segments[k];
    }
  }

  /** paths were created on the way to `done` segments: prefixes that were not directories before, shorter ones
      first, and nothing else. */
  ghost predicate OnlyMissing(segments: seq<string>, done: nat, dirs: set<string>, paths: seq<string>)
    requires WellFormed(segments) && done <= |segments|
    decreases done
  {
    if done == 0 then paths == []
    else
      OnlyMissing(segments, done - 1, dirs, paths)
      || (paths != [] && paths[|paths| - 1] == Prefix(segments, done) && Prefix(segments, done) !in dirs
          && OnlyMissing(segments, done - 1, dirs, paths[..|paths| - 1]))
  }

  lemma OneMoreMissing(segments: seq<string>, k: nat, before: set<string>, dirs: set<string>, created: seq<string>)
    requires WellFormed(segments) && k < |segments| && before <= dirs && OnlyMissing(segments, k, before, created)
    ensures OnlyMissing(segments, k + 1, before,
                        created + if Prefix(segments, k + 1) in dirs then [] else [Prefix(segments, k + 1)])
  {
    hide Prefix, WellFormed;
    if Prefix(segments, k + 1) in dirs {
      assert created + [] == created;
    } else {
      assert (created + [Prefix(segments, k + 1)])[..|created|] == created;
    }
  }

  /** The state after k rounds. */
  ghost predicate Walked(segments: seq<string>, k: nat, before: set<string>, created: seq<string>, otherNames: set<string>,
                         dirs: set<string>)
    requires WellFormed(segments) && k <= |segments|
  {
    OnlyMissing(segments, k, before, created) && AllThere(segments, k, before, created, otherNames, dirs)
  }

  /** One round more. */
  lemma WalkedOn(segments: seq<string>, k: nat, before: set<string>, created: seq<string>, otherNames: set<string>,
                 dirs: set<string>, otherNames': set<string>, dirs': set<string>)
    requires WellFormed(segments) && k < |segments| && Walked(segments, k, before, created, otherNames, dirs)
    requires otherNames <= otherNames'
    requires Prefix(segments, k + 1) in dirs ==> dirs' == dirs
    requires Prefix(segments, k + 1) !in dirs ==> dirs' == dirs + {Prefix(segments, k + 1)} + otherNames'
    ensures Walked(segments, k + 1, before,
                   created + if Prefix(segments, k + 1) in dirs then [] else [Prefix(segments, k + 1)], otherNames', dirs')
  {
    hide Prefix, WellFormed, AllThere, OnlyMissing;
    var p := Prefix(segments, k + 1);
    var created' := created + if p in dirs then [] else [p];
    if p !in dirs {
      assert created'[|created|] == p;
    }
    assert before <= dirs by {
      Kept(segments, k, before, created, otherNames, dirs);
    }
    OneMoreThere(segments, k, before, created, otherNames, dirs, created', otherNames', dirs');
    OneMoreMissing(segments, k, before, dirs, created);
  }

  lemma Kept(segments: seq<string>, k: nat, before: set<string>, created: seq<string>, otherNames: set<string>, dirs: set<string>)
    requires WellFormed(segments) && k <= |segments| && AllThere(segments, k, before, created, otherNames, dirs)
    ensures before <= dirs
  {
  }

  lemma NothingYet(segments: seq<string>, dirs: set<string>, otherNames: set<string>, others: set<string>)
    requires WellFormed(segments)
    ensures Prefix(segments, 0) == "" && NoneBlocks(segments, 0, others)
    ensures Walked(segments, 0, dirs, [], otherNames, dirs)
  {
  }

  /** The first k partial paths are directories: they were already, have been created, or are other names of what was. */
  ghost predicate AllThere(segments: seq<string>, k: nat, before: set<string>, created: seq<string>, otherNames: set<string>,
                           dirs: set<string>)
    requires WellFormed(segments) && k <= |segments|
  {
    && before <= dirs && (forall p :: p in dirs ==> p in before || p in created || p in otherNames)
    && forall j :: 0 < j <= k ==> Prefix(segments, j) in dirs
  }

  lemma OneMoreThere(segments: seq<string>, k: nat, before: set<string>, created: seq<string>, otherNames: set<string>,
                     dirs: set<string>, created': seq<string>, otherNames': set<string>, dirs': set<string>)
    requires WellFormed(segments) && k < |segments| && AllThere(segments, k, before, created, otherNames, dirs)
    requires Prefix(segments, k + 1) in dirs' && dirs <= dirs' && created <= created' && otherNames <= otherNames'
    requires forall p :: p in dirs' ==> p in dirs || p in created' || p in otherNames'
    ensures AllThere(segments, k + 1, before, created', otherNames', dirs')
  {
    hide Prefix, WellFormed;
    forall p | p in dirs' ensures p in before || p in created' || p in otherNames' {
      if p in dirs && p in created {
        var i :| 0 <= i < |created| && created[i] == p;
        assert created'[i] == p;
      }
    }
  }

  /** None of the first k partial paths leads to something else than a directory. */
  ghost predicate NoneBlocks(segments: seq<string>, k: nat, others: set<string>)
    requires WellFormed(segments) && k <= |segments|
  {
    forall j :: 0 < j <= k ==> Prefix(segments, j) !in others
  }

  lemma OneMoreFree(segments: seq<string>, k: nat, others: set<string>)
    requires WellFormed(segments) && k < |segments|
    ensures NoneBlocks(segments, k + 1, others) <==> NoneBlocks(segments, k, others) && Prefix(segments, k + 1) !in others
  {
    hide Prefix, WellFormed;
  }

  lemma BlockedStays(segments: seq<string>, k: nat, n: nat, others: set<string>)
    requires WellFormed(segments) && k <= n <= |segments| && !NoneBlocks(segments, k, others)
    ensures !NoneBlocks(segments, n, others)
  {
    hide Prefix, WellFormed;
  }

  /** One round: a partial path that is a directory is passed over, one that is missing is created. */
  method CreateMissing(env: Env, partialPath: string) returns (s: Status)
    requires env.Valid()
    modifies env`dirs, env`created, env`otherNames, env`refusals
    ensures env.Valid() && old(env.dirs) <= env.dirs && old(env.otherNames) <= env.otherNames
    ensures s == OK ==> partialPath in env.dirs
    ensures s != OK || partialPath in old(env.dirs) ==>
              env.dirs == old(env.dirs) && env.created == old(env.created) && env.otherNames == old(env.otherNames)
    ensures s == OK && partialPath !in old(env.dirs) ==>
              env.created == old(env.created) + [partialPath] && env.dirs == old(env.dirs) + {partialPath} + env.otherNames
    ensures s == OK <==> env.refusals == old(env.refusals) && partialPath !in env.others
    ensures s != OK && env.refusals == old(env.refusals) ==> s == AlreadyPresent
  {
    var isDir;
    s, isDir := env.IsDirectory(partialPath);
    if s == OK {
      if isDir {
        return;
      }
      var realPartialPath;
      s, realPartialPath := env.Canonicalize(partialPath);
      if s != OK {
        return;
      }
      s, isDir := env.IsDirectory(realPartialPath);
      if s == OK && isDir {
        return;
      }
    }
    s := env.CreateDir(partialPath);
  }

  /** OK exactly if no call was refused that could have worked and no partial path leads to something else than a
      directory, and then every partial path is a directory. Nothing is created but missing partial paths, whatever
      the outcome, and the demands of JoinPathSegments are always met. */
  method CreateDirsRecursively(env: Env, path: string) returns (s: Status, ghost done: nat)
    requires env.Valid()
    modifies env`dirs, env`created, env`otherNames, env`refusals
    ensures env.Valid()
    ensures WellFormed(Segments(path)) && done <= |Segments(path)| && (s == OK <==> done == |Segments(path)|)
    ensures |env.created| >= |old(env.created)| && env.created[..|old(env.created)|] == old(env.created)
    ensures Walked(Segments(path), done, old(env.dirs), env.created[|old(env.created)|..], env.otherNames, env.dirs)
    ensures s == OK <==> env.refusals == old(env.refusals) && NoneBlocks(Segments(path), |Segments(path)|, env.others)
    ensures s != OK && env.refusals == old(env.refusals) ==>
              s == AlreadyPresent && NoneBlocks(Segments(path), done, env.others) && Prefix(Segments(path), done + 1) in env.others
  {
    SegmentsAreWellFormed(path);
    var segments := SplitPath(path);
    var partialPath := "";
    ghost var n, before, refusals := |env.created|, env.dirs, env.refusals;
    done := 0;
    assert env.created[n..] == [];
    hide WellFormed, Prefix, PathOf, Segments, Walked, NoneBlocks, JoinPathSegments, Env.Valid;
    NothingYet(segments, before, env.otherNames, env.others);
    for i := 0 to |segments|
      invariant done == i && env.Valid()
      invariant partialPath == Prefix(segments, i)
      invariant |env.created| >= n && env.created[..n] == old(env.created)
      invariant Walked(segments, i, before, env.created[n..], env.otherNames, env.dirs)
      invariant env.refusals == refusals && NoneBlocks(segments, i, env.others)
    {
      PrefixGrows(segments, i);
      partialPath := if partialPath == "" then segments[i] else JoinPathSegments(partialPath, segments[i]);
      ghost var created, otherNames, dirs := env.created[n..], env.otherNames, env.dirs;
      s := CreateMissing(env, partialPath);
      OneMoreFree(segments, i, env.others);
      if s != OK {
        if partialPath in env.others {
          BlockedStays(segments, i + 1, |segments|, env.others);
        }
        return;
      }
      done := i + 1;
      assert env.created[n..] == created + if partialPath in dirs then [] else [partialPath];
      WalkedOn(segments, i, before, created, otherNames, dirs, env.otherNames, env.dirs);
    }
    s := OK;
  }
}
