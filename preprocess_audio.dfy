/**
 * The copy variant of the duration filter (preprocess_audio.py, `filter_audio`): every `.wav`
 * file met while walking the source folder whose duration lies in a closed interval is copied
 * to a `filtered_`-prefixed name, beside the source or mirrored below a destination folder.
 * The duration probe (pydub) is the oracle `probe`, which yields `None` where decoding raises;
 * the walk is the snapshot `walk` of the source folder.
 */
module Preprocess {
  import opened Wrappers
  import opened Text
  import opened Fs
  import opened Walk

  const FilteredPrefix: string := "filtered_"

  /** The arguments of `filter_audio`. */
  datatype FilterConfig = FilterConfig(src: Path, dst: Option<Path>, minDuration: real, maxDuration: real,
                                       disableFilter: bool)

  /** `min_duration <= duration <= max_duration`, closed at both ends. */
  predicate InRange(cfg: FilterConfig, duration: real)
  {
    cfg.minDuration <= duration <= cfg.maxDuration
  }

  /** The folder a kept copy goes to: the file's own folder, or its mirror below `dst_folder`. */
  function DestinationFolder(cfg: FilterConfig, rel: Path): Path
  {
    if cfg.dst.None? then cfg.src + rel else cfg.dst.value + rel
  }

  function SourcePath(cfg: FilterConfig, e: Entry): Path
  {
    cfg.src + e.rel + [e.name]
  }

  /** `root/filtered_<file>` or `dst_folder/relpath(root, src_folder)/filtered_<file>`. */
  function FilterDestination(cfg: FilterConfig, e: Entry): (p: Path)
    ensures Name(p) == FilteredPrefix + e.name && StartsWith(Name(p), FilteredPrefix)
    ensures Parent(p) == DestinationFolder(cfg, e.rel)
    ensures cfg.dst.None? ==> p == cfg.src + e.rel + [FilteredPrefix + e.name]
    ensures cfg.dst.Some? ==> p == cfg.dst.value + e.rel + [FilteredPrefix + e.name]
  {
    var name := FilteredPrefix + e.name;
    assert name[0] == 'f';
    DestinationFolder(cfg, e.rel) + [name]
  }

  /** The body of the inner loop for one `.wav` file. A failing `makedirs`, a source that cannot
      be decoded, a failing copy and a copy that cannot be decoded again all raise and end the
      pass. */
  function FilterFile(cfg: FilterConfig, probe: Contents -> Option<real>, fs: FileSystem, e: Entry): (r: Run)
    ensures cfg.disableFilter ==> r == Run(fs, true)
    ensures fs.dirs <= r.fs.dirs && fs.files.Keys <= r.fs.files.Keys
    ensures forall q :: q in r.fs.dirs && q !in fs.dirs ==> cfg.dst.Some? && q <= DestinationFolder(cfg, e.rel)
    ensures forall p :: !(FilterDestination(cfg, e) <= p) ==> SameAt(fs, r.fs, p)
    ensures var src := SourcePath(cfg, e);
      !cfg.disableFilter && (src !in fs.files || probe(fs.files[src]).None?) ==> !r.ok
    ensures var src := SourcePath(cfg, e);
      var dst := FilterDestination(cfg, e);
      !cfg.disableFilter && src in fs.files && probe(fs.files[src]).Some? ==>
        var duration := probe(fs.files[src]).value;
        && (!InRange(cfg, duration) ==> r.fs.files == fs.files)
        && (!InRange(cfg, duration) && cfg.dst.None? ==> r == Run(fs, true))
        && (InRange(cfg, duration) && r.ok ==> dst in r.fs.files && r.fs.files[dst] == fs.files[src])
    ensures !cfg.disableFilter && cfg.dst.Some? && MakeDirs(fs, DestinationFolder(cfg, e.rel)).None? ==>
      r == Run(fs, false)
    ensures var src := SourcePath(cfg, e);
      var made := MakeDirs(fs, DestinationFolder(cfg, e.rel));
      && !cfg.disableFilter && cfg.dst.Some? && made.Some?
      && src in fs.files && probe(fs.files[src]).Some? && !InRange(cfg, probe(fs.files[src]).value) ==>
        r == Run(made.value, true)
  {
    if cfg.disableFilter then Run(fs, true)
    else
      var made := if cfg.dst.Some? then MakeDirs(fs, DestinationFolder(cfg, e.rel)) else Some(fs);
      if made.None? then Run(fs, false)
      else
        var fs1 := made.value;
        var src := SourcePath(cfg, e);
        var dst := FilterDestination(cfg, e);
        if src !in fs1.files || probe(fs1.files[src]).None? then Run(fs1, false)
        else if !InRange(cfg, probe(fs1.files[src]).value) then Run(fs1, true)
        else
          match Copy(fs1, src, dst)
          case None => Run(fs1, false)
          case Some(fs2) => Run(fs2, dst in fs2.files && !IsDir(fs2, dst) && probe(fs2.files[dst]).Some?)
  }

  function FilterStep(cfg: FilterConfig, probe: Contents -> Option<real>): (FileSystem, Entry) -> Run
  {
    (a, e) => FilterFile(cfg, probe, a, e)
  }

  /** What `filter_audio` does: nothing when the source folder is missing, otherwise every
      `.wav` file of the walk in order. */
  function Filtering(cfg: FilterConfig, probe: Contents -> Option<real>, fs: FileSystem, walk: seq<WalkDir>): Run
  {
    if !Exists(fs, cfg.src) then Run(fs, true)
    else RunAll(fs, WavEntries(walk), FilterStep(cfg, probe))
  }

  /** `filter_audio`: the walk loop, each directory handed to `FilterDirectory`. */
  method FilterAudio(fs: FileSystem, cfg: FilterConfig, probe: Contents -> Option<real>, walk: seq<WalkDir>)
    returns (fs': FileSystem, ok: bool)
    ensures Run(fs', ok) == Filtering(cfg, probe, fs, walk)
    ensures !Exists(fs, cfg.src) ==> fs' == fs && ok
  {
    if !Exists(fs, cfg.src) {
      return fs, true;
    }
    var step := FilterStep(cfg, probe);
    fs' := fs;
    var i := 0;
    while i < |walk|
      invariant 0 <= i <= |walk|
      invariant RunAll(fs', WavEntries(walk[i..]), step) == RunAll(fs, WavEntries(walk), step)
    {
      assert walk[i..][1..] == walk[i + 1..];
      RunAllAppend(fs', WavFiles(walk[i].rel, walk[i].files), WavEntries(walk[i + 1..]), step);
      var done;
      fs', done := FilterDirectory(fs', cfg, probe, walk[i].rel, walk[i].files);
      if !done {
        return fs', false;
      }
      i := i + 1;
    }
    ok := true;
  }

  /** The inner loop of `filter_audio` over the files of one directory, keeping the `.wav` ones. */
  method FilterDirectory(fs: FileSystem, cfg: FilterConfig, probe: Contents -> Option<real>, rel: Path,
                         files: seq<string>) returns (fs': FileSystem, ok: bool)
    ensures Run(fs', ok) == RunAll(fs, WavFiles(rel, files), FilterStep(cfg, probe))
  {
    var step := FilterStep(cfg, probe);
    fs' := fs;
    var j := 0;
    while j < |files|
      invariant 0 <= j <= |files|
      invariant RunAll(fs', WavFiles(rel, files[j..]), step) == RunAll(fs, WavFiles(rel, files), step)
    {
      assert files[j..][1..] == files[j + 1..];
      if EndsWith(files[j], ".wav") {
        var r := FilterFile(cfg, probe, fs', Entry(rel, files[j]));
        if !r.ok {
          return r.fs, false;
        }
        fs' := r.fs;
      }
      j := j + 1;
    }
    ok := true;
  }

  /** With `disable_filter` the pass copies nothing and changes nothing. */
  lemma FilteringDisabledIsNoOp(cfg: FilterConfig, probe: Contents -> Option<real>, fs: FileSystem, walk: seq<WalkDir>)
    requires cfg.disableFilter
    ensures Filtering(cfg, probe, fs, walk) == Run(fs, true)
  {
    RunAllNoOp(fs, WavEntries(walk), FilterStep(cfg, probe));
  }

  /** `p` is a destination, or lies inside one (where a copy into a directory lands). */
  ghost predicate AtOrBelowDestination(cfg: FilterConfig, entries: seq<Entry>, p: Path)
  {
    exists e :: e in entries && FilterDestination(cfg, e) <= p
  }

  /** The file system after the pass differs from the one before only at or below the
      destinations of `.wav` files of the walk; no file is deleted and no folder removed. */
  lemma FilteringFrame(cfg: FilterConfig, probe: Contents -> Option<real>, fs: FileSystem, walk: seq<WalkDir>)
    ensures var r := Filtering(cfg, probe, fs, walk).fs;
      && fs.dirs <= r.dirs && fs.files.Keys <= r.files.Keys
      && forall p :: !AtOrBelowDestination(cfg, WavEntries(walk), p) ==> SameAt(fs, r, p)
  {
    var entries := WavEntries(walk);
    var step := FilterStep(cfg, probe);
    var rel := (a: FileSystem, b: FileSystem) =>
      && a.dirs <= b.dirs && a.files.Keys <= b.files.Keys
      && forall p :: !AtOrBelowDestination(cfg, entries, p) ==> SameAt(a, b, p);
    forall a ensures rel(a, a) {
      assert forall p :: SameAt(a, a, p);
    }
    forall a, i | 0 <= i < |entries| ensures rel(a, step(a, entries[i]).fs) {
      var e := entries[i];
      forall p | !AtOrBelowDestination(cfg, entries, p) ensures SameAt(a, step(a, e).fs, p) {
        assert !(FilterDestination(cfg, e) <= p);
      }
    }
    RunAllKeeps(fs, entries, step, rel);
  }

  /** With a destination folder of its own, nothing outside that folder gains or changes a file,
      and the only folders created are the destination folder, its ancestors and its mirrored
      sub-folders. */
  lemma FilteringToFolderStaysInside(cfg: FilterConfig, probe: Contents -> Option<real>, fs: FileSystem,
                                     walk: seq<WalkDir>)
    requires cfg.dst.Some?
    ensures var r := Filtering(cfg, probe, fs, walk).fs;
      && (forall p :: !(cfg.dst.value < p) ==> SameAt(fs, r, p))
      && (forall q :: q in r.dirs && q !in fs.dirs ==> q <= cfg.dst.value || cfg.dst.value <= q)
  {
    var entries := WavEntries(walk);
    FilteringFrame(cfg, probe, fs, walk);
    var r := Filtering(cfg, probe, fs, walk).fs;
    forall p | !(cfg.dst.value < p) ensures !AtOrBelowDestination(cfg, entries, p) {
      forall e | e in entries ensures !(FilterDestination(cfg, e) <= p) {
        assert cfg.dst.value < FilterDestination(cfg, e);
      }
    }
    var step := FilterStep(cfg, probe);
    var d := cfg.dst.value;
    var dirRel := (a: FileSystem, b: FileSystem) =>
      forall q :: q in b.dirs && q !in a.dirs ==> q <= d || d <= q;
    forall a, i | 0 <= i < |entries| ensures dirRel(a, step(a, entries[i]).fs) {
      forall q | q in step(a, entries[i]).fs.dirs && q !in a.dirs ensures q <= d || d <= q {
        PrefixOfPrefixes(q, d, entries[i].rel);
      }
    }
    RunAllKeeps(fs, entries, step, dirRel);
  }

  /** A prefix of `d + rel` is a prefix of `d` or extends `d`. */
  lemma PrefixOfPrefixes(q: Path, d: Path, rel: Path)
    requires q <= d + rel
    ensures q <= d || d <= q
  {
    if |q| <= |d| {
      assert q == (d + rel)[..|q|] == d[..|q|];
    } else {
      assert d == (d + rel)[..|d|] == q[..|d|];
    }
  }

  /** One file: a decodable `.wav` outside the interval produces no new file, and one inside it
      is copied to its destination whenever the step completes. */
  lemma FilterKeepsExactlyInRange(cfg: FilterConfig, probe: Contents -> Option<real>, fs: FileSystem, e: Entry)
    requires !cfg.disableFilter && SourcePath(cfg, e) in fs.files && probe(fs.files[SourcePath(cfg, e)]).Some?
    ensures var r := FilterFile(cfg, probe, fs, e);
      var duration := probe(fs.files[SourcePath(cfg, e)]).value;
      r.ok && FilterDestination(cfg, e) !in fs.files ==>
        (FilterDestination(cfg, e) in r.fs.files <==> InRange(cfg, duration))
  {
  }

  /** Without a destination folder, a decodable in-range source whose destination is free of
      directories is copied beside itself and the step completes. */
  lemma FilterCopiesBeside(cfg: FilterConfig, probe: Contents -> Option<real>, fs: FileSystem, e: Entry)
    requires !cfg.disableFilter && cfg.dst.None?
    requires SourcePath(cfg, e) in fs.files && probe(fs.files[SourcePath(cfg, e)]).Some?
    requires InRange(cfg, probe(fs.files[SourcePath(cfg, e)]).value)
    requires !IsDir(fs, FilterDestination(cfg, e)) && IsDir(fs, cfg.src + e.rel)
    ensures var src := SourcePath(cfg, e);
      FilterFile(cfg, probe, fs, e) == Run(fs.(files := fs.files[FilterDestination(cfg, e) := fs.files[src]]), true)
  {
    var src := SourcePath(cfg, e);
    var dst := FilterDestination(cfg, e);
    assert dst != src by {
      assert dst[|dst| - 1] == FilteredPrefix + e.name && src[|src| - 1] == e.name;
      assert |FilteredPrefix + e.name| != |e.name|;
    }
  }

  /** With a destination folder, a decodable in-range clip is copied to its mirrored
      `filtered_` name once the mirrored folder is created, and the pass goes on. */
  lemma FilterCopiesToFolder(cfg: FilterConfig, probe: Contents -> Option<real>, fs: FileSystem, e: Entry)
    requires !cfg.disableFilter && cfg.dst.Some?
    requires MakeDirs(fs, DestinationFolder(cfg, e.rel)).Some?
    requires SourcePath(cfg, e) in fs.files && probe(fs.files[SourcePath(cfg, e)]).Some?
    requires InRange(cfg, probe(fs.files[SourcePath(cfg, e)]).value)
    requires !IsDir(fs, FilterDestination(cfg, e))
    ensures var src := SourcePath(cfg, e);
      var fs1 := MakeDirs(fs, DestinationFolder(cfg, e.rel)).value;
      FilterFile(cfg, probe, fs, e) == Run(fs1.(files := fs1.files[FilterDestination(cfg, e) := fs.files[src]]), true)
  {
    var src := SourcePath(cfg, e);
    var dst := FilterDestination(cfg, e);
    var folder := DestinationFolder(cfg, e.rel);
    var fs1 := MakeDirs(fs, folder).value;
    assert dst != src by {
      assert dst[|dst| - 1] == FilteredPrefix + e.name && src[|src| - 1] == e.name;
      assert |FilteredPrefix + e.name| != |e.name|;
    }
    assert dst !in Prefixes(folder);
    assert !IsDir(fs1, dst);
    assert IsDir(fs1, Parent(dst));
  }

  /** A step over a file `n` directly in the source folder, with no destination folder, copies
      it beside itself as `filtered_<n>`. */
  lemma FilterCopiesAtTop(cfg: FilterConfig, probe: Contents -> Option<real>, fs: FileSystem, n: string)
    requires !cfg.disableFilter && cfg.dst.None? && IsDir(fs, cfg.src)
    requires cfg.src + [n] in fs.files && probe(fs.files[cfg.src + [n]]).Some?
    requires InRange(cfg, probe(fs.files[cfg.src + [n]]).value)
    requires !IsDir(fs, cfg.src + [FilteredPrefix + n])
    ensures FilterFile(cfg, probe, fs, Entry([], n)) ==
      Run(fs.(files := fs.files[cfg.src + [FilteredPrefix + n] := fs.files[cfg.src + [n]]]), true)
  {
    var e := Entry([], n);
    assert cfg.src + [] == cfg.src;
    assert SourcePath(cfg, e) == cfg.src + [n];
    assert FilterDestination(cfg, e) == cfg.src + [FilteredPrefix + n];
    FilterCopiesBeside(cfg, probe, fs, e);
  }

  /** Sources are left alone only where no destination falls on them: without a destination
      folder, a source already named `filtered_<n>` is overwritten by the copy of `<n>` taken
      in the same directory just before it. */
  lemma FilteringCanOverwriteFilteredSource(cfg: FilterConfig, probe: Contents -> Option<real>, fs: FileSystem,
                                            n: string)
    requires !cfg.disableFilter && cfg.dst.None? && EndsWith(n, ".wav") && IsDir(fs, cfg.src)
    requires cfg.src + [n] in fs.files && probe(fs.files[cfg.src + [n]]).Some?
    requires InRange(cfg, probe(fs.files[cfg.src + [n]]).value)
    requires !IsDir(fs, cfg.src + [FilteredPrefix + n]) && !IsDir(fs, cfg.src + [FilteredPrefix + (FilteredPrefix + n)])
    ensures var r := Filtering(cfg, probe, fs, [WalkDir([], [n, FilteredPrefix + n])]);
      && r.ok && cfg.src + [FilteredPrefix + n] in r.fs.files
      && r.fs.files[cfg.src + [FilteredPrefix + n]] == fs.files[cfg.src + [n]]
  {
    var src := cfg.src;
    var m := FilteredPrefix + n;
    assert EndsWith(m, ".wav") by {
      assert m[|m| - 4..] == n[|n| - 4..];
    }
    WavEntriesOfOneDir([], n, m);
    var d1 := src + [m];
    var d2 := src + [FilteredPrefix + m];
    assert d1 != d2 by {
      assert d1[|src|] == m && d2[|src|] == FilteredPrefix + m;
      assert |d1[|src|]| < |d2[|src|]|;
    }
    FilterTwoAtTop(cfg, probe, fs, n, m);
    var fs1 := fs.(files := fs.files[d1 := fs.files[src + [n]]]);
    assert fs1.files[d1] == fs.files[src + [n]];
  }

  /** Two top-level in-range clips `n` and `m` in turn, where `m`'s copy does not land on `m`'s
      own name: the second step copies the first step's result onward. */
  lemma FilterTwoAtTop(cfg: FilterConfig, probe: Contents -> Option<real>, fs: FileSystem, n: string, m: string)
    requires !cfg.disableFilter && cfg.dst.None? && IsDir(fs, cfg.src) && m == FilteredPrefix + n
    requires cfg.src + [n] in fs.files && probe(fs.files[cfg.src + [n]]).Some?
    requires InRange(cfg, probe(fs.files[cfg.src + [n]]).value)
    requires !IsDir(fs, cfg.src + [m]) && !IsDir(fs, cfg.src + [FilteredPrefix + m])
    ensures var fs1 := fs.(files := fs.files[cfg.src + [m] := fs.files[cfg.src + [n]]]);
      RunAll(fs, [Entry([], n), Entry([], m)], FilterStep(cfg, probe)) ==
        Run(fs1.(files := fs1.files[cfg.src + [FilteredPrefix + m] := fs1.files[cfg.src + [m]]]), true)
  {
    var d1 := cfg.src + [m];
    var fs1 := fs.(files := fs.files[d1 := fs.files[cfg.src + [n]]]);
    var fs2 := fs1.(files := fs1.files[cfg.src + [FilteredPrefix + m] := fs1.files[d1]]);
    FilterCopiesAtTop(cfg, probe, fs, n);
    assert d1 in fs1.files && fs1.files[d1] == fs.files[cfg.src + [n]];
    FilterCopiesAtTop(cfg, probe, fs1, m);
    RunAllTwo(fs, Entry([], n), Entry([], m), FilterStep(cfg, probe), fs1, fs2);
  }
}
