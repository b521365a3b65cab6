/**
 * The move/delete variant of the duration filter (audio_duration_filter.py): every `.wav` file
 * met while walking the source folder is moved straight into the destination folder when it
 * lasts between 3 and 10 seconds, and deleted otherwise. The probe and the walk are parameters as
 * in the copy variant.
 */
module DurationFilter {
  import opened Wrappers
  import opened Text
  import opened Fs
  import opened Walk

  const MinSeconds: real := 3.0
  const MaxSeconds: real := 10.0

  /** `3 <= duration <= 10`, closed at both ends. */
  predicate Keep(duration: real)
  {
    MinSeconds <= duration <= MaxSeconds
  }

  function SourcePath(srcFolder: Path, e: Entry): Path
  {
    srcFolder + e.rel + [e.name]
  }

  /** `os.path.join(dst_folder, file)`: only the file name counts, not the sub-folder. */
  function FlatDestination(dstFolder: Path, e: Entry): (p: Path)
    ensures Parent(p) == dstFolder && |p| > 0 && p[|p| - 1] == e.name
  {
    dstFolder + [e.name]
  }

  /** `process_audio_file`: probe the clip, then move it to `dst` or delete it. A clip that
      cannot be decoded and a failing move raise and end the pass. */
  function ProcessFile(fs: FileSystem, src: Path, dst: Path, probe: Contents -> Option<real>): (r: Run)
    ensures r.fs.dirs == fs.dirs
    ensures src !in fs.files || probe(fs.files[src]).None? ==> r == Run(fs, false)
    ensures forall q :: q != src && q != MoveTarget(fs, src, dst) ==> SameAt(fs, r.fs, q)
    ensures src in fs.files && probe(fs.files[src]).Some? && !Keep(probe(fs.files[src]).value) ==>
      r.ok && r.fs.files == fs.files - {src}
    ensures src in fs.files && probe(fs.files[src]).Some? && Keep(probe(fs.files[src]).value) ==>
      var t := MoveTarget(fs, src, dst);
      && (r.ok <==> Move(fs, src, dst).Some?)
      && (r.ok ==> t in r.fs.files && r.fs.files[t] == fs.files[src] && (t != src ==> src !in r.fs.files))
      && (!r.ok ==> r.fs == fs)
  {
    if src !in fs.files || probe(fs.files[src]).None? then Run(fs, false)
    else if Keep(probe(fs.files[src]).value) then
      match Move(fs, src, dst)
      case None => Run(fs, false)
      case Some(fs1) => Run(fs1, true)
    else
      match Remove(fs, src)
      case None => Run(fs, false)
      case Some(fs1) => Run(fs1, true)
  }

  function ProcessStep(srcFolder: Path, dstFolder: Path, probe: Contents -> Option<real>): (FileSystem, Entry) -> Run
  {
    (a, e) => ProcessFile(a, SourcePath(srcFolder, e), FlatDestination(dstFolder, e), probe)
  }

  /** What `process_audio_files` does: every `.wav` file of the walk in order. */
  function Processing(fs: FileSystem, srcFolder: Path, dstFolder: Path, probe: Contents -> Option<real>,
                      walk: seq<WalkDir>): Run
  {
    RunAll(fs, WavEntries(walk), ProcessStep(srcFolder, dstFolder, probe))
  }

  /** `process_audio_files`: the walk loop, each directory handed to `ProcessDirectory`. */
  method ProcessAudioFiles(fs: FileSystem, srcFolder: Path, dstFolder: Path, probe: Contents -> Option<real>,
                           walk: seq<WalkDir>) returns (fs': FileSystem, ok: bool)
    ensures Run(fs', ok) == Processing(fs, srcFolder, dstFolder, probe, walk)
  {
    var step := ProcessStep(srcFolder, dstFolder, probe);
    fs' := fs;
    var i := 0;
    while i < |walk|
      invariant 0 <= i <= |walk|
      invariant RunAll(fs', WavEntries(walk[i..]), step) == RunAll(fs, WavEntries(walk), step)
    {
      assert walk[i..][1..] == walk[i + 1..];
      RunAllAppend(fs', WavFiles(walk[i].rel, walk[i].files), WavEntries(walk[i + 1..]), step);
      var done;
      fs', done := ProcessDirectory(fs', srcFolder, dstFolder, probe, walk[i].rel, walk[i].files);
      if !done {
        return fs', false;
      }
      i := i + 1;
    }
    ok := true;
  }

  /** The inner loop over the files of one directory, keeping the `.wav` ones. */
  method ProcessDirectory(fs: FileSystem, srcFolder: Path, dstFolder: Path, probe: Contents -> Option<real>,
                          rel: Path, files: seq<string>) returns (fs': FileSystem, ok: bool)
    ensures Run(fs', ok) == RunAll(fs, WavFiles(rel, files), ProcessStep(srcFolder, dstFolder, probe))
  {
    var step := ProcessStep(srcFolder, dstFolder, probe);
    fs' := fs;
    var j := 0;
    while j < |files|
      invariant 0 <= j <= |files|
      invariant RunAll(fs', WavFiles(rel, files[j..]), step) == RunAll(fs, WavFiles(rel, files), step)
    {
      assert files[j..][1..] == files[j + 1..];
      if EndsWith(files[j], ".wav") {
        var e := Entry(rel, files[j]);
        var r := ProcessFile(fs', SourcePath(srcFolder, e), FlatDestination(dstFolder, e), probe);
        if !r.ok {
          return r.fs, false;
        }
        fs' := r.fs;
      }
      j := j + 1;
    }
    ok := true;
  }

  /** `p` is the source of a `.wav` file of the walk, or lies at or below its destination. */
  ghost predicate Touched(srcFolder: Path, dstFolder: Path, entries: seq<Entry>, p: Path)
  {
    exists e :: e in entries && (p == SourcePath(srcFolder, e) || FlatDestination(dstFolder, e) <= p)
  }

  /** The pass creates and removes no folder, and changes files only at the sources and the
      destinations of the walk's `.wav` files. */
  lemma ProcessingFrame(fs: FileSystem, srcFolder: Path, dstFolder: Path, probe: Contents -> Option<real>,
                        walk: seq<WalkDir>)
    ensures var r := Processing(fs, srcFolder, dstFolder, probe, walk).fs;
      && r.dirs == fs.dirs
      && forall p :: !Touched(srcFolder, dstFolder, WavEntries(walk), p) ==> SameAt(fs, r, p)
  {
    var entries := WavEntries(walk);
    var step := ProcessStep(srcFolder, dstFolder, probe);
    var rel := (a: FileSystem, b: FileSystem) =>
      a.dirs == b.dirs && forall p :: !Touched(srcFolder, dstFolder, entries, p) ==> SameAt(a, b, p);
    forall a ensures rel(a, a) {
      assert forall p :: SameAt(a, a, p);
    }
    forall a, i | 0 <= i < |entries| ensures rel(a, step(a, entries[i]).fs) {
      var e := entries[i];
      forall p | !Touched(srcFolder, dstFolder, entries, p) ensures SameAt(a, step(a, e).fs, p) {
        assert p != SourcePath(srcFolder, e) && !(FlatDestination(dstFolder, e) <= p);
        assert MoveTarget(a, SourcePath(srcFolder, e), FlatDestination(dstFolder, e)) != p;
      }
    }
    RunAllKeeps(fs, entries, step, rel);
  }

  /** Files whose name does not end in `.wav`, outside the destination folder, are untouched. */
  lemma ProcessingLeavesOtherFiles(fs: FileSystem, srcFolder: Path, dstFolder: Path, probe: Contents -> Option<real>,
                                   walk: seq<WalkDir>, p: Path)
    requires !EndsWith(Name(p), ".wav") && !(dstFolder < p)
    ensures SameAt(fs, Processing(fs, srcFolder, dstFolder, probe, walk).fs, p)
  {
    ProcessingFrame(fs, srcFolder, dstFolder, probe, walk);
    forall e | e in WavEntries(walk) ensures p != SourcePath(srcFolder, e) && !(FlatDestination(dstFolder, e) <= p) {
      var s := SourcePath(srcFolder, e);
      assert e.name != "/";
      assert Name(s) == e.name;
      assert dstFolder < FlatDestination(dstFolder, e);
    }
  }

  /** A clip that is kept, whose destination is a free file name in an existing folder, ends up
      at the destination with its contents and its source is gone. */
  lemma ProcessMoves(fs: FileSystem, src: Path, dst: Path, probe: Contents -> Option<real>)
    requires src in fs.files && probe(fs.files[src]).Some? && Keep(probe(fs.files[src]).value)
    requires !IsDir(fs, dst) && IsDir(fs, Parent(dst)) && src != dst
    ensures ProcessFile(fs, src, dst, probe) == Run(fs.(files := fs.files[dst := fs.files[src]] - {src}), true)
  {
  }

  /** One step of the pass on a kept clip whose destination is free: the clip is moved. */
  lemma ProcessStepMoves(fs: FileSystem, srcFolder: Path, dstFolder: Path, probe: Contents -> Option<real>, e: Entry)
    requires var s := SourcePath(srcFolder, e);
      && s in fs.files && probe(fs.files[s]).Some? && Keep(probe(fs.files[s]).value)
    requires IsDir(fs, dstFolder) && !IsDir(fs, FlatDestination(dstFolder, e))
    requires SourcePath(srcFolder, e) != FlatDestination(dstFolder, e)
    ensures var s := SourcePath(srcFolder, e); var d := FlatDestination(dstFolder, e);
      ProcessStep(srcFolder, dstFolder, probe)(fs, e) == Run(fs.(files := fs.files[d := fs.files[s]] - {s}), true)
  {
    ProcessMoves(fs, SourcePath(srcFolder, e), FlatDestination(dstFolder, e), probe);
  }

  /** Flattening: two kept clips with the same name in different sub-folders go to the same
      destination, and the one walked later replaces the earlier one; both sources are gone. */
  lemma ProcessingFlattensCollidingNames(fs: FileSystem, srcFolder: Path, dstFolder: Path,
                                         probe: Contents -> Option<real>, r1: Path, r2: Path, n: string)
    requires EndsWith(n, ".wav") && IsDir(fs, dstFolder) && !IsDir(fs, dstFolder + [n])
    requires var s1 := srcFolder + r1 + [n]; var s2 := srcFolder + r2 + [n];
      && s1 != s2 && s1 != dstFolder + [n] && s2 != dstFolder + [n]
      && s1 in fs.files && s2 in fs.files
      && probe(fs.files[s1]).Some? && Keep(probe(fs.files[s1]).value)
      && probe(fs.files[s2]).Some? && Keep(probe(fs.files[s2]).value)
    ensures var s1 := srcFolder + r1 + [n]; var s2 := srcFolder + r2 + [n];
      var r := Processing(fs, srcFolder, dstFolder, probe, [WalkDir(r1, [n]), WalkDir(r2, [n])]);
      && r.ok && dstFolder + [n] in r.fs.files && r.fs.files[dstFolder + [n]] == fs.files[s2]
      && s1 !in r.fs.files && s2 !in r.fs.files
  {
    var s1 := srcFolder + r1 + [n];
    var s2 := srcFolder + r2 + [n];
    var d := dstFolder + [n];
    var a := Entry(r1, n);
    var b := Entry(r2, n);
    WavEntriesOfTwoDirs(r1, n, r2, n);
    var fs1 := fs.(files := fs.files[d := fs.files[s1]] - {s1});
    var fs2 := fs1.(files := fs1.files[d := fs1.files[s2]] - {s2});
    ProcessStepMoves(fs, srcFolder, dstFolder, probe, a);
    assert s2 in fs1.files && fs1.files[s2] == fs.files[s2];
    ProcessStepMoves(fs1, srcFolder, dstFolder, probe, b);
    RunAllTwo(fs, a, b, ProcessStep(srcFolder, dstFolder, probe), fs1, fs2);
  }
}
