/**
 * The directory walk the filter stages iterate: `os.walk` as a snapshot listing each directory
 * below the top with the names of its regular files, and the `.wav` files it yields in order.
 */
module Walk {
  import opened Text
  import opened Fs

  /** One directory `os.walk` yields: its path relative to the walk's top and the names of the
      regular files in it. */
  datatype WalkDir = WalkDir(rel: Path, files: seq<string>)

  /** A file met during a walk: its directory relative to the top and its name. */
  datatype Entry = Entry(rel: Path, name: string)

  /** The `.wav` files of one directory, in listing order. */
  function WavFiles(rel: Path, files: seq<string>): (r: seq<Entry>)
    ensures forall e :: e in r <==> e.rel == rel && e.name in files && EndsWith(e.name, ".wav")
    decreases |files|
  {
    if files == [] then []
    else
      var rest := WavFiles(rel, files[1..]);
      if EndsWith(files[0], ".wav") then [Entry(rel, files[0])] + rest else rest
  }

  /** The `.wav` files of a whole walk, directory by directory. */
  function WavEntries(walk: seq<WalkDir>): (r: seq<Entry>)
    ensures forall e :: e in r <==>
      EndsWith(e.name, ".wav") && exists i :: 0 <= i < |walk| && walk[i].rel == e.rel && e.name in walk[i].files
    decreases |walk|
  {
    if walk == [] then []
    else
      var r := WavFiles(walk[0].rel, walk[0].files) + WavEntries(walk[1..]);
      assert forall e :: e in r <==>
        EndsWith(e.name, ".wav") && exists i :: 0 <= i < |walk| && walk[i].rel == e.rel && e.name in walk[i].files by {
        forall e ensures e in WavEntries(walk[1..]) <==>
          EndsWith(e.name, ".wav") && exists i :: 1 <= i < |walk| && walk[i].rel == e.rel && e.name in walk[i].files
        {
          if e in WavEntries(walk[1..]) {
            var i :| 0 <= i < |walk[1..]| && walk[1..][i].rel == e.rel && e.name in walk[1..][i].files;
            assert walk[i + 1] == walk[1..][i];
          }
          if exists i :: 1 <= i < |walk| && walk[i].rel == e.rel && e.name in walk[i].files {
            var i :| 1 <= i < |walk| && walk[i].rel == e.rel && e.name in walk[i].files;
            assert walk[1..][i - 1] == walk[i];
          }
        }
      }
      r
  }

  /** A directory listing a single `.wav` file contributes that one entry. */
  lemma WavFilesSingle(rel: Path, n: string)
    requires EndsWith(n, ".wav")
    ensures WavFiles(rel, [n]) == [Entry(rel, n)]
  {
    var names: seq<string> := [n];
    assert names[1..] == [];
  }

  /** Two directories listing one `.wav` file each yield those two entries in walk order. */
  lemma WavEntriesOfTwoDirs(r1: Path, n1: string, r2: Path, n2: string)
    requires EndsWith(n1, ".wav") && EndsWith(n2, ".wav")
    ensures WavEntries([WalkDir(r1, [n1]), WalkDir(r2, [n2])]) == [Entry(r1, n1), Entry(r2, n2)]
  {
    var walk := [WalkDir(r1, [n1]), WalkDir(r2, [n2])];
    WavFilesSingle(r1, n1);
    WavFilesSingle(r2, n2);
    assert walk[1..] == [WalkDir(r2, [n2])] && walk[1..][1..] == [];
    assert WavEntries(walk[1..]) == [Entry(r2, n2)];
  }

  /** One directory listing two `.wav` files yields both entries in listing order. */
  lemma WavEntriesOfOneDir(rel: Path, n1: string, n2: string)
    requires EndsWith(n1, ".wav") && EndsWith(n2, ".wav")
    ensures WavEntries([WalkDir(rel, [n1, n2])]) == [Entry(rel, n1), Entry(rel, n2)]
  {
    var walk := [WalkDir(rel, [n1, n2])];
    var names: seq<string> := [n1, n2];
    assert names[1..] == [n2];
    WavFilesSingle(rel, n2);
    assert WavFiles(rel, names) == [Entry(rel, n1), Entry(rel, n2)];
    assert walk[1..] == [];
  }
}
