/**
 * The file system the pipeline stages act on, as a value: the regular files with
 * their contents and the set of directories. Paths are sequences of components,
 * as `pathlib` splits them; an absolute path keeps its anchor "/" as its first
 * component. The operations are the library calls the stages make
 * (`os.makedirs`/`Path.mkdir(parents=True, exist_ok=True)`, `shutil.copy`/`copy2`,
 * `shutil.move`, `os.remove`); each returns `None` where the call raises.
 */
module Fs {
  import opened Wrappers
  import opened Text

  type Contents = string
  type Path = seq<string>

  datatype FileSystem = FileSystem(files: map<Path, Contents>, dirs: set<Path>)

  /** A name that stays a single path component: no slash, not empty, not ".". */
  predicate SimpleName(s: string)
  {
    s != "" && s != "." && '/' !in s
  }

  /** The components of a string path: the pieces between slashes that are neither empty nor ".". */
  function Components(pieces: seq<string>): (r: Path)
    ensures forall k :: 0 <= k < |r| ==> SimpleName(r[k]) || exists j :: 0 <= j < |pieces| && pieces[j] == r[k] && '/' in pieces[j]
    ensures (forall j :: 0 <= j < |pieces| ==> SimpleName(pieces[j])) ==> r == pieces
    decreases |pieces|
  {
    if pieces == [] then []
    else
      var rest := Components(pieces[1..]);
      if pieces[0] == "" || pieces[0] == "." then rest else [pieces[0]] + rest
  }

  /** The components of two piece lists are those of each, in order. */
  lemma {:induction false} ComponentsAppend(x: seq<string>, y: seq<string>)
    ensures Components(x + y) == Components(x) + Components(y)
    decreases |x|
  {
    if x == [] {
      assert x + y == y;
    } else {
      assert (x + y)[0] == x[0] && (x + y)[1..] == x[1..] + y;
      ComponentsAppend(x[1..], y);
    }
  }

  /** `PurePosixPath(s).parts`: the anchor "/" of an absolute path, then its components. */
  function ParsePath(s: string): (p: Path)
    ensures forall k :: 0 <= k < |p| ==> (k == 0 && p[k] == "/") || SimpleName(p[k])
    ensures (|p| > 0 && p[0] == "/") <==> (|s| > 0 && s[0] == '/')
  {
    var pieces := Split(s, '/');
    var rest := Components(pieces);
    assert forall k :: 0 <= k < |rest| ==> SimpleName(rest[k]);
    (if |s| > 0 && s[0] == '/' then ["/"] else []) + rest
  }

  /** The parts of `a/b` are those of `a` followed by those of `b`, for a non-empty `a`; the anchor
      of an absolute `b` is dropped, as the doubled slash collapses. */
  lemma ParsePathAppend(a: string, b: string)
    requires a != ""
    ensures !(|b| > 0 && b[0] == '/') ==> ParsePath(a + "/" + b) == ParsePath(a) + ParsePath(b)
    ensures |b| > 0 && b[0] == '/' ==> ParsePath(a + "/" + b) == ParsePath(a) + ParsePath(b)[1..]
  {
    var s := a + "/" + b;
    assert s[0] == a[0];
    var pa, pb := Split(a, '/'), Split(b, '/');
    SplitAppend(a, '/', b);
    assert Split(s, '/') == pa + pb;
    ComponentsAppend(pa, pb);
    var ca, cb := Components(pa), Components(pb);
    assert ParsePath(b) == (if |b| > 0 && b[0] == '/' then ["/"] else []) + cb;
    assert ParsePath(b)[if |b| > 0 && b[0] == '/' then 1 else 0..] == cb;
    if a[0] == '/' {
      assert ParsePath(a) == ["/"] + ca;
      assert ParsePath(s) == ["/"] + (ca + cb);
      AppendAssociates(["/"], ca, cb);
    } else {
      assert ParsePath(a) == ca;
      assert ParsePath(s) == ca + cb;
    }
  }

  /** A leading slash anchors the parts of what follows it; a second one adds nothing. */
  lemma ParsePathRoot(b: string)
    ensures !(|b| > 0 && b[0] == '/') ==> ParsePath("/" + b) == ["/"] + ParsePath(b)
    ensures |b| > 0 && b[0] == '/' ==> ParsePath("/" + b) == ParsePath(b)
  {
    var s := "/" + b;
    assert s == [] + ['/'] + b;
    SplitAppend([], '/', b);
    var pb := Split(b, '/');
    assert Split(s, '/') == [""] + pb;
    assert ([""] + pb)[1..] == pb;
    assert Components([""] + pb) == Components(pb);
  }

  /** The empty string and "." have no parts. */
  lemma ParsePathCurrent()
    ensures ParsePath("") == [] && ParsePath(".") == []
  {
    SplitWithoutSeparator(".", '/');
    assert Split("", '/') == [""];
  }

  /** A path that starts at the root. */
  predicate Absolute(p: Path)
  {
    |p| > 0 && p[0] == "/"
  }

  /** A path without ".." components, so that its spelling names the file it leads to
      (symbolic links aside). */
  predicate Plain(p: Path)
  {
    forall k :: 0 <= k < |p| ==> p[k] != ".."
  }

  /** `p / s` for a string `s`: an absolute `s` replaces `p`, a relative one extends it. */
  function JoinStr(p: Path, s: string): (r: Path)
    ensures |s| > 0 && s[0] == '/' ==> r == ParsePath(s)
    ensures !(|s| > 0 && s[0] == '/') ==> p <= r && r[|p|..] == ParsePath(s)
  {
    if |s| > 0 && s[0] == '/' then ParsePath(s) else p + ParsePath(s)
  }

  lemma SimpleNameParses(p: Path, s: string)
    requires SimpleName(s)
    ensures ParsePath(s) == [s]
    ensures JoinStr(p, s) == p + [s]
  {
    SplitWithoutSeparator(s, '/');
  }

  /** `Path.name`: the last component, "" for the empty path and for the root. */
  function Name(p: Path): (r: string)
    ensures (|p| == 0 || p[|p| - 1] == "/") ==> r == ""
    ensures |p| > 0 && p[|p| - 1] != "/" ==> Parent(p) + [r] == p
  {
    if |p| == 0 || p[|p| - 1] == "/" then "" else p[|p| - 1]
  }

  /** The containing directory; the empty path stands for the working directory. */
  function Parent(p: Path): Path
  {
    if |p| == 0 then [] else p[..|p| - 1]
  }

  predicate IsFile(fs: FileSystem, p: Path)
  {
    p in fs.files
  }

  /** The working directory and the root always exist. */
  predicate IsDir(fs: FileSystem, p: Path)
  {
    p == [] || p == ["/"] || p in fs.dirs
  }

  /** `os.path.exists` / `Path.exists`. */
  predicate Exists(fs: FileSystem, p: Path)
  {
    IsFile(fs, p) || IsDir(fs, p)
  }

  /** `fs` and `fs'` hold the same file, or no file, at `p`. */
  predicate SameAt(fs: FileSystem, fs': FileSystem, p: Path)
  {
    (p in fs.files <==> p in fs'.files) && (p in fs.files ==> fs.files[p] == fs'.files[p])
  }

  /** `fs'` keeps every file and directory of `fs` unchanged (it may add more). */
  ghost predicate Extends(fs: FileSystem, fs': FileSystem)
  {
    fs.dirs <= fs'.dirs && forall p :: p in fs.files ==> p in fs'.files && fs'.files[p] == fs.files[p]
  }

  /** The non-empty prefixes of `p`: the directories `os.makedirs(p)` needs. */
  function Prefixes(p: Path): set<Path>
  {
    set k | 1 <= k <= |p| :: p[..k]
  }

  /** `os.makedirs(p, exist_ok=True)`: fails when `p` or one of its ancestors is a regular file. */
  function MakeDirs(fs: FileSystem, p: Path): (r: Option<FileSystem>)
    ensures r.None? <==> exists k :: 1 <= k <= |p| && p[..k] in fs.files
    ensures r.Some? ==> r.value.files == fs.files && IsDir(r.value, p)
    ensures r.Some? ==> forall k :: 1 <= k <= |p| ==> p[..k] in r.value.dirs
    ensures r.Some? ==> forall q :: q in r.value.dirs ==> q in fs.dirs || q <= p
    ensures r.Some? ==> r.value.dirs == fs.dirs + Prefixes(p)
    ensures r.Some? ==> Extends(fs, r.value)
  {
    if exists k :: 1 <= k <= |p| && p[..k] in fs.files then None
    else
      var r := fs.(dirs := fs.dirs + Prefixes(p));
      assert p != [] ==> p[..|p|] == p && p[..|p|] in Prefixes(p);
      Some(r)
  }

  /** Creating directories that exist already changes nothing. */
  lemma MakeDirsIdempotent(fs: FileSystem, p: Path)
    requires MakeDirs(fs, p).Some?
    ensures MakeDirs(MakeDirs(fs, p).value, p) == MakeDirs(fs, p)
  {
    var fs1 := MakeDirs(fs, p).value;
    assert fs1.dirs + Prefixes(p) == fs1.dirs;
  }


  /** Where `shutil.copy(src, dst)` writes: into `dst` when it is a directory. */
  function CopyTarget(fs: FileSystem, src: Path, dst: Path): Path
  {
    if IsDir(fs, dst) then dst + [Name(src)] else dst
  }

  /** `shutil.copy(src, dst)` / `shutil.copy2(src, dst)` (metadata is not modelled): fails when
      `src` is not a regular file, when it would copy a file onto itself, when the target is a
      directory or when the target's directory does not exist. */
  function Copy(fs: FileSystem, src: Path, dst: Path): (r: Option<FileSystem>)
    ensures var t := CopyTarget(fs, src, dst);
      r.None? <==> src !in fs.files || t == src || IsDir(fs, t) || !IsDir(fs, Parent(t))
    ensures r.Some? ==> var t := CopyTarget(fs, src, dst);
      && r.value.dirs == fs.dirs
      && t in r.value.files && r.value.files[t] == fs.files[src]
      && (forall q :: q != t ==> SameAt(fs, r.value, q))
      && r.value.files.Keys == fs.files.Keys + {t}
  {
    var t := CopyTarget(fs, src, dst);
    if src !in fs.files || t == src || IsDir(fs, t) || !IsDir(fs, Parent(t)) then None
    else Some(fs.(files := fs.files[t := fs.files[src]]))
  }

  /** Where `shutil.move(src, dst)` puts the file: inside `dst` when it is a directory. */
  function MoveTarget(fs: FileSystem, src: Path, dst: Path): Path
  {
    if IsDir(fs, dst) then dst + [Name(src)] else dst
  }

  /** `shutil.move(src, dst)` for a regular file `src`: a rename that replaces an existing file at
      the target; it fails when the target exists inside a destination directory, when `src` is
      not a regular file or when the target's directory does not exist. Moving a file onto itself
      leaves it in place. */
  function Move(fs: FileSystem, src: Path, dst: Path): (r: Option<FileSystem>)
    ensures var t := MoveTarget(fs, src, dst);
      r.None? <==> (IsDir(fs, dst) && Exists(fs, t)) || src !in fs.files || !IsDir(fs, Parent(t))
    ensures r.Some? ==> var t := MoveTarget(fs, src, dst);
      && r.value.dirs == fs.dirs
      && t in r.value.files && r.value.files[t] == fs.files[src]
      && (t != src ==> src !in r.value.files)
      && (forall q :: q != t && q != src ==> SameAt(fs, r.value, q))
  {
    var t := MoveTarget(fs, src, dst);
    if (IsDir(fs, dst) && Exists(fs, t)) || src !in fs.files || !IsDir(fs, Parent(t)) then None
    else if t == src then Some(fs)
    else Some(fs.(files := fs.files[t := fs.files[src]] - {src}))
  }

  /** `os.remove(p)`: fails unless `p` is a regular file. */
  function Remove(fs: FileSystem, p: Path): (r: Option<FileSystem>)
    ensures r.None? <==> p !in fs.files
    ensures r.Some? ==> r.value.dirs == fs.dirs && p !in r.value.files
    ensures r.Some? ==> forall q :: q != p ==> SameAt(fs, r.value, q)
  {
    if p !in fs.files then None else Some(fs.(files := fs.files - {p}))
  }

  /** The outcome of a pass: the file system it leaves behind and whether it ran to the end
      (`ok == false`: an exception escaped, after the changes made up to that point). */
  datatype Run = Run(fs: FileSystem, ok: bool)

  /** Applies `step` to the items in order, stopping at the first step that raises. */
  function RunAll<T>(fs: FileSystem, items: seq<T>, step: (FileSystem, T) -> Run): Run
    decreases |items|
  {
    if items == [] then Run(fs, true)
    else
      var r := step(fs, items[0]);
      if !r.ok then r else RunAll(r.fs, items[1..], step)
  }

  /** A relation between states that holds across every single step (and is reflexive and
      transitive) holds across the whole pass. */
  lemma {:induction false} RunAllKeeps<T>(fs: FileSystem, items: seq<T>, step: (FileSystem, T) -> Run,
                                         rel: (FileSystem, FileSystem) -> bool)
    requires forall a :: rel(a, a)
    requires forall a, b, c :: rel(a, b) && rel(b, c) ==> rel(a, c)
    requires forall a, i :: 0 <= i < |items| ==> rel(a, step(a, items[i]).fs)
    ensures rel(fs, RunAll(fs, items, step).fs)
    decreases |items|
  {
    if items != [] {
      var r := step(fs, items[0]);
      assert rel(fs, r.fs);
      if r.ok {
        forall a, i | 0 <= i < |items[1..]| ensures rel(a, step(a, items[1..][i]).fs) {
          assert items[1..][i] == items[i + 1];
        }
        RunAllKeeps(r.fs, items[1..], step, rel);
      }
    }
  }

  /** A pass whose every step changes nothing and completes changes nothing. */
  lemma {:induction false} RunAllNoOp<T>(fs: FileSystem, items: seq<T>, step: (FileSystem, T) -> Run)
    requires forall a, i :: 0 <= i < |items| ==> step(a, items[i]) == Run(a, true)
    ensures RunAll(fs, items, step) == Run(fs, true)
    decreases |items|
  {
    if items != [] {
      assert step(fs, items[0]) == Run(fs, true);
      forall a, i | 0 <= i < |items[1..]| ensures step(a, items[1..][i]) == Run(a, true) {
        assert items[1..][i] == items[i + 1];
      }
      RunAllNoOp(fs, items[1..], step);
    }
  }

  /** A state that every step reached before the first failure leaves alone is left alone by
      the whole pass. */
  lemma {:induction false} RunAllStable<T>(fs: FileSystem, items: seq<T>, step: (FileSystem, T) -> Run)
    requires forall i :: 0 <= i < |items| && (forall j :: 0 <= j < i ==> step(fs, items[j]).ok) ==>
      step(fs, items[i]).fs == fs
    ensures RunAll(fs, items, step).fs == fs
    decreases |items|
  {
    if items != [] {
      var r := step(fs, items[0]);
      if r.ok {
        forall i | 0 <= i < |items[1..]| && (forall j :: 0 <= j < i ==> step(fs, items[1..][j]).ok)
          ensures step(fs, items[1..][i]).fs == fs
        {
          forall j | 0 <= j < i + 1 ensures step(fs, items[j]).ok {
            if j > 0 { assert items[j] == items[1..][j - 1]; }
          }
          assert items[1..][i] == items[i + 1];
        }
        RunAllStable(fs, items[1..], step);
      }
    }
  }

  /** Running the first item and then the rest is running them all: the loop-invariant step. */
  lemma RunAllUnfold<T>(fs: FileSystem, items: seq<T>, step: (FileSystem, T) -> Run)
    requires items != []
    ensures RunAll(fs, items, step) ==
      (var r := step(fs, items[0]); if !r.ok then r else RunAll(r.fs, items[1..], step))
  {
  }

  /** A pass over `a + b` is the pass over `a` followed, if it completes, by the pass over `b`. */
  lemma {:induction false} RunAllAppend<T>(fs: FileSystem, a: seq<T>, b: seq<T>, step: (FileSystem, T) -> Run)
    ensures RunAll(fs, a + b, step) ==
      (var r := RunAll(fs, a, step); if !r.ok then r else RunAll(r.fs, b, step))
    decreases |a|
  {
    if a == [] {
      assert a + b == b;
    } else {
      assert (a + b)[0] == a[0];
      assert (a + b)[1..] == a[1..] + b;
      var r := step(fs, a[0]);
      if r.ok {
        RunAllAppend(r.fs, a[1..], b, step);
      }
    }
  }

  /** Two steps that both complete make a pass that completes in the second step's state. */
  lemma RunAllTwo<T>(fs: FileSystem, a: T, b: T, step: (FileSystem, T) -> Run, fs1: FileSystem, fs2: FileSystem)
    requires step(fs, a) == Run(fs1, true) && step(fs1, b) == Run(fs2, true)
    ensures RunAll(fs, [a, b], step) == Run(fs2, true)
  {
    RunAllUnfold(fs, [a, b], step);
    assert [a, b][1..] == [b];
    RunAllUnfold(fs1, [b], step);
  }
}
