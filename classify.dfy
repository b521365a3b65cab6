/**
 * The routing stage (classify.py): reading the ledger and copying each accepted
 * clip to `<output>/<character>/<emotion>/【<emotion>】<file name>`. The worker
 * pool runs the per-row tasks one after the other, in ledger order.
 */
module Classify {
  import opened Wrappers
  import opened Text
  import opened Fs

  /** The neutral label, which always passes the consistency check. */
  const Neutral: string := "中立"
  /** The header of the optional text-emotion column. */
  const TextEmotionColumn: string := "TextEmotion"
  /** The character of a row with fewer than four fields. */
  const UnknownCharacter: string := "Unknown"

  /** The consistency policy of `process_audio_file`: cases in which a row is skipped. */
  function SkipsForMismatch(audioEmotion: string, textEmotion: Option<string>): bool
  {
    if textEmotion.None? then false
    else audioEmotion != textEmotion.value && audioEmotion != Neutral && textEmotion.value != ""
  }

  /** Neutral audio, an empty or absent text emotion, and agreement all proceed; every other
      row is skipped. */
  lemma ConsistencyPolicy(audioEmotion: string, textEmotion: Option<string>)
    ensures audioEmotion == Neutral ==> !SkipsForMismatch(audioEmotion, textEmotion)
    ensures textEmotion == None || textEmotion == Some("") ==> !SkipsForMismatch(audioEmotion, textEmotion)
    ensures textEmotion == Some(audioEmotion) ==> !SkipsForMismatch(audioEmotion, textEmotion)
    ensures SkipsForMismatch(audioEmotion, textEmotion) <==>
      textEmotion.Some? && textEmotion.value != "" && textEmotion.value != audioEmotion && audioEmotion != Neutral
  {
  }

  /** `Path(output_path) / character / audio_emotion`. */
  function EmotionFolder(output: Path, character: string, audioEmotion: string): Path
  {
    JoinStr(JoinStr(output, character), audioEmotion)
  }

  /** `f"【{audio_emotion}】{audio_name}"`. */
  function TaggedName(audioEmotion: string, name: string): string
  {
    "【" + audioEmotion + "】" + name
  }

  /** Where a clip is copied to. */
  function Destination(output: Path, character: string, audioEmotion: string, src: Path): Path
  {
    JoinStr(EmotionFolder(output, character, audioEmotion), TaggedName(audioEmotion, Name(src)))
  }

  /** The name of a parsed path holds no slash. */
  lemma NameOfParsedPath(s: string)
    ensures '/' !in Name(ParsePath(s))
  {
  }

  /** With plain character and emotion names the destination is
      `output/character/emotion/【emotion】name`, and its file name starts with the emotion tag. */
  lemma DestinationLayout(output: Path, character: string, audioEmotion: string, src: Path)
    requires SimpleName(character) && SimpleName(audioEmotion) && '/' !in Name(src)
    ensures Destination(output, character, audioEmotion, src) ==
      output + [character, audioEmotion, TaggedName(audioEmotion, Name(src))]
    ensures SimpleName(TaggedName(audioEmotion, Name(src)))
    ensures StartsWith(Name(Destination(output, character, audioEmotion, src)), "【" + audioEmotion + "】")
    ensures Parent(Destination(output, character, audioEmotion, src)) == EmotionFolder(output, character, audioEmotion)
  {
    var tagged := TaggedName(audioEmotion, Name(src));
    assert tagged[0] == '【';
    SimpleNameParses(output, character);
    SimpleNameParses(output + [character], audioEmotion);
    SimpleNameParses(output + [character, audioEmotion], tagged);
    assert output + [character] + [audioEmotion] == output + [character, audioEmotion];
    assert output + [character, audioEmotion] + [tagged] == output + [character, audioEmotion, tagged];
  }

  /** What happened to one row. */
  datatype RouteOutcome = SourceMissing | EmotionMismatch | FolderFailed | AlreadyExists | CopyFailed | Copied

  datatype Routing = Routing(fs: FileSystem, outcome: RouteOutcome)

  /** The last step of `process_audio_file`: copy the clip unless something exists at the
      destination; a failing copy is caught and logged. */
  function CopyIfAbsent(fs: FileSystem, src: Path, dst: Path): (r: Routing)
    ensures r.outcome in {AlreadyExists, CopyFailed, Copied}
    ensures r.outcome == AlreadyExists <==> Exists(fs, dst)
    ensures r.outcome == Copied <==> !Exists(fs, dst) && src in fs.files && IsDir(fs, Parent(dst))
    ensures r.outcome != Copied ==> r.fs == fs
    ensures r.outcome == Copied ==>
      src in fs.files && dst !in fs.files && r.fs == fs.(files := fs.files[dst := fs.files[src]])
  {
    if Exists(fs, dst) then Routing(fs, AlreadyExists)
    else
      match Copy(fs, src, dst)
      case None => Routing(fs, CopyFailed)
      case Some(fs2) => Routing(fs2, Copied)
  }

  /** `process_audio_file`: skip a missing source and a mismatching row, create the bucket folder,
      and copy the clip unless the destination exists. A failing folder creation ends the routing of that row. */
  function Route(fs: FileSystem, audioFile: string, character: string, audioEmotion: string,
                 textEmotion: Option<string>, output: Path): (r: Routing)
    ensures var src := ParsePath(audioFile);
      && (r.outcome == SourceMissing <==> !Exists(fs, src))
      && (r.outcome == EmotionMismatch <==> Exists(fs, src) && SkipsForMismatch(audioEmotion, textEmotion))
      && (r.outcome in {SourceMissing, EmotionMismatch, FolderFailed} ==> r.fs == fs)
    ensures var src := ParsePath(audioFile);
      var folder := EmotionFolder(output, character, audioEmotion);
      && (r.outcome == FolderFailed <==>
            Exists(fs, src) && !SkipsForMismatch(audioEmotion, textEmotion) &&
            exists k :: 1 <= k <= |folder| && folder[..k] in fs.files)
      && (r.outcome == Copied <==>
            && src in fs.files && !SkipsForMismatch(audioEmotion, textEmotion)
            && MakeDirs(fs, folder).Some?
            && var dst := Destination(output, character, audioEmotion, src);
               !Exists(MakeDirs(fs, folder).value, dst) && IsDir(MakeDirs(fs, folder).value, Parent(dst)))
    ensures var src := ParsePath(audioFile);
      var dst := Destination(output, character, audioEmotion, src);
      && (r.outcome !in {SourceMissing, EmotionMismatch, FolderFailed} ==>
            r.fs.dirs == fs.dirs + Prefixes(EmotionFolder(output, character, audioEmotion)))
      && (r.outcome != Copied ==> r.fs.files == fs.files)
      && (r.outcome == Copied ==> src in fs.files && dst !in fs.files && r.fs.files == fs.files[dst := fs.files[src]])
  {
    var src := ParsePath(audioFile);
    if !Exists(fs, src) then Routing(fs, SourceMissing)
    else if SkipsForMismatch(audioEmotion, textEmotion) then Routing(fs, EmotionMismatch)
    else
      var folder := EmotionFolder(output, character, audioEmotion);
      match MakeDirs(fs, folder)
      case None => Routing(fs, FolderFailed)
      case Some(fs1) => CopyIfAbsent(fs1, src, JoinStr(folder, TaggedName(audioEmotion, Name(src))))
  }

  /** An accepted row whose source is a regular file, whose bucket folder can be created and
      whose destination is free is copied there. */
  lemma RouteCopies(fs: FileSystem, audioFile: string, character: string, audioEmotion: string,
                    textEmotion: Option<string>, output: Path)
    requires ParsePath(audioFile) in fs.files
    requires !SkipsForMismatch(audioEmotion, textEmotion)
    requires '/' !in audioEmotion
    requires var folder := EmotionFolder(output, character, audioEmotion);
      forall k :: 1 <= k <= |folder| ==> folder[..k] !in fs.files
    requires !Exists(fs, Destination(output, character, audioEmotion, ParsePath(audioFile)))
    ensures var src := ParsePath(audioFile);
      var r := Route(fs, audioFile, character, audioEmotion, textEmotion, output);
      && r.outcome == Copied
      && r.fs.files == fs.files[Destination(output, character, audioEmotion, src) := fs.files[src]]
      && r.fs.dirs == fs.dirs + Prefixes(EmotionFolder(output, character, audioEmotion))
  {
    var src := ParsePath(audioFile);
    var folder := EmotionFolder(output, character, audioEmotion);
    var tagged := TaggedName(audioEmotion, Name(src));
    NameOfParsedPath(audioFile);
    TaggedNameSimple(audioEmotion, Name(src));
    SimpleNameParses(folder, tagged);
    var dst := Destination(output, character, audioEmotion, src);
    assert dst == folder + [tagged];
    assert MakeDirs(fs, folder).Some?;
    var fs1 := MakeDirs(fs, folder).value;
    assert forall q :: q in Prefixes(folder) ==> |q| <= |folder|;
    assert !Exists(fs1, dst);
    assert Parent(dst) == folder;
  }

  /** A tagged name over a slash-free emotion and name is a single path component. */
  lemma TaggedNameSimple(audioEmotion: string, name: string)
    requires '/' !in audioEmotion && '/' !in name
    ensures SimpleName(TaggedName(audioEmotion, name))
  {
    var tagged := TaggedName(audioEmotion, name);
    assert tagged[0] == '【';
    forall i | 0 <= i < |tagged| ensures tagged[i] != '/' {
      if 1 <= i < 1 + |audioEmotion| {
        assert tagged[i] == audioEmotion[i - 1];
      } else if i >= 2 + |audioEmotion| {
        assert tagged[i] == name[i - 2 - |audioEmotion|];
      }
    }
  }

  /** Routing never deletes or alters an existing file or folder, and the source is left as it was. */
  lemma RouteExtends(fs: FileSystem, audioFile: string, character: string, audioEmotion: string,
                     textEmotion: Option<string>, output: Path)
    ensures Extends(fs, Route(fs, audioFile, character, audioEmotion, textEmotion, output).fs)
    ensures var src := ParsePath(audioFile);
      var r := Route(fs, audioFile, character, audioEmotion, textEmotion, output).fs;
      src in fs.files ==> src in r.files && r.files[src] == fs.files[src]
  {
  }

  /** Routing a row a second time changes nothing. */
  lemma RouteIdempotent(fs: FileSystem, audioFile: string, character: string, audioEmotion: string,
                        textEmotion: Option<string>, output: Path)
    ensures var once := Route(fs, audioFile, character, audioEmotion, textEmotion, output).fs;
      Route(once, audioFile, character, audioEmotion, textEmotion, output).fs == once
  {
    var src := ParsePath(audioFile);
    var folder := EmotionFolder(output, character, audioEmotion);
    var first := Route(fs, audioFile, character, audioEmotion, textEmotion, output);
    if Exists(fs, src) && !SkipsForMismatch(audioEmotion, textEmotion) && MakeDirs(fs, folder).Some? {
      var fs1 := MakeDirs(fs, folder).value;
      MakeDirsIdempotent(fs, folder);
      var dst := JoinStr(folder, TaggedName(audioEmotion, Name(src)));
      if first.outcome == Copied {
        var fs2 := first.fs;
        TaggedNameIsBelow(folder, audioEmotion, Name(src));
        assert forall k :: 1 <= k <= |folder| ==> folder[..k] != dst;
        assert fs2.dirs + Prefixes(folder) == fs2.dirs;
        assert MakeDirs(fs2, folder) == Some(fs2);
      }
    }
  }

  /** The tagged name adds at least one component below the folder. */
  lemma TaggedNameIsBelow(folder: Path, audioEmotion: string, name: string)
    ensures |JoinStr(folder, TaggedName(audioEmotion, name))| > |folder|
    ensures folder < JoinStr(folder, TaggedName(audioEmotion, name))
  {
    var tagged := TaggedName(audioEmotion, name);
    var pieces := Split(tagged, '/');
    assert tagged[0] == '【';
    assert |pieces[0]| > 0 ==> pieces[0][0] == '【' by {
      JoinFirstPiece(pieces, '/');
    }
    JoinFirstPiece(pieces, '/');
    assert pieces[0] != "" && pieces[0] != ".";
    assert ParsePath(tagged) == Components(pieces);
    assert Components(pieces) == [pieces[0]] + Components(pieces[1..]);
  }

  /** `header.index(column)` guarded by `column in header`. */
  function ColumnIndex(header: seq<string>, column: string): (r: Option<nat>)
    ensures r.None? <==> column !in header
    ensures r.Some? ==> r.value < |header| && header[r.value] == column
    ensures r.Some? ==> forall j :: 0 <= j < r.value ==> header[j] != column
    decreases |header|
  {
    if header == [] then None
    else if header[0] == column then Some(0)
    else
      match ColumnIndex(header[1..], column)
      case None => None
      case Some(k) => Some(k + 1)
  }

  /** The fields `classify_audio_emotion` takes from one data row. */
  datatype RowFields = RowFields(audioPath: string, audioEmotion: string, character: string,
                                 textEmotion: Option<string>)

  /** Field extraction, `None` where indexing the row raises. */
  function ExtractRow(row: seq<string>, textIndex: Option<nat>): (r: Option<RowFields>)
    ensures r.None? <==> |row| < 2 || (textIndex.Some? && textIndex.value >= |row|)
    ensures r.Some? ==> r.value.audioPath == row[0] && r.value.audioEmotion == row[1]
    ensures r.Some? ==> r.value.character == if |row| > 3 then row[3] else UnknownCharacter
    ensures r.Some? ==> r.value.textEmotion == if textIndex.None? then None else Some(row[textIndex.value])
  {
    if |row| < 2 then None
    else if textIndex.Some? && textIndex.value >= |row| then None
    else
      Some(RowFields(row[0], row[1], if |row| > 3 then row[3] else UnknownCharacter,
                     if textIndex.Some? then Some(row[textIndex.value]) else None))
  }

  /** One data row: extraction raises in the reading loop and ends the pass; otherwise the row's
      task runs, and whatever it raises is only logged. */
  function RouteRow(output: Path, textIndex: Option<nat>, fs: FileSystem, row: seq<string>): Run
  {
    match ExtractRow(row, textIndex)
    case None => Run(fs, false)
    case Some(f) => Run(Route(fs, f.audioPath, f.character, f.audioEmotion, f.textEmotion, output).fs, true)
  }

  function RowStep(output: Path, textIndex: Option<nat>): (FileSystem, seq<string>) -> Run
  {
    (a, row) => RouteRow(output, textIndex, a, row)
  }

  /** What `classify_audio_emotion` does, as a function of the file system it starts from. */
  function Classification(fs: FileSystem, logFile: Path, output: Path): Run
  {
    if !Exists(fs, logFile) then Run(fs, true)
    else
      match MakeDirs(fs, output)
      case None => Run(fs, false)
      case Some(fs1) =>
        if logFile !in fs1.files then Run(fs1, false)
        else
          var rows := CsvRows(fs1.files[logFile]);
          if rows == [] then Run(fs1, false)
          else
            var textIndex := ColumnIndex(rows[0], TextEmotionColumn);
            RunAll(fs1, rows[1..], RowStep(output, textIndex))
  }

  /** `classify_audio_emotion`: returns at once without a ledger; otherwise creates the output
      folder, takes the first row as the header and routes every later row. */
  method ClassifyAudioEmotion(fs: FileSystem, logFile: Path, output: Path) returns (fs': FileSystem, ok: bool)
    ensures Run(fs', ok) == Classification(fs, logFile, output)
    ensures !Exists(fs, logFile) ==> fs' == fs && ok
    ensures Extends(fs, fs')
  {
    ClassificationExtends(fs, logFile, output);
    if !Exists(fs, logFile) {
      return fs, true;
    }
    var made := MakeDirs(fs, output);
    if made.None? {
      return fs, false;
    }
    var fs1 := made.value;
    if logFile !in fs1.files {
      return fs1, false;
    }
    var rows := CsvRows(fs1.files[logFile]);
    if rows == [] {
      return fs1, false;
    }
    var textIndex := ColumnIndex(rows[0], TextEmotionColumn);
    var step := RowStep(output, textIndex);
    fs' := fs1;
    var i := 1;
    while i < |rows|
      invariant 1 <= i <= |rows|
      invariant RunAll(fs', rows[i..], step) == RunAll(fs1, rows[1..], step)
    {
      assert rows[i..][1..] == rows[i + 1..];
      var routed := RouteRow(output, textIndex, fs', rows[i]);
      if !routed.ok {
        return fs', false;
      }
      fs' := routed.fs;
      i := i + 1;
    }
    ok := true;
  }

  /** Classification never deletes or alters an existing file or folder. */
  lemma ClassificationExtends(fs: FileSystem, logFile: Path, output: Path)
    ensures Extends(fs, Classification(fs, logFile, output).fs)
  {
    if Exists(fs, logFile) && MakeDirs(fs, output).Some? {
      var fs1 := MakeDirs(fs, output).value;
      if logFile in fs1.files && CsvRows(fs1.files[logFile]) != [] {
        var rows := CsvRows(fs1.files[logFile]);
        var textIndex := ColumnIndex(rows[0], TextEmotionColumn);
        var step := RowStep(output, textIndex);
        forall a, i | 0 <= i < |rows[1..]| ensures Extends(a, step(a, rows[1..][i]).fs) {
          var row := rows[1..][i];
          if ExtractRow(row, textIndex).Some? {
            var f := ExtractRow(row, textIndex).value;
            RouteExtends(a, f.audioPath, f.character, f.audioEmotion, f.textEmotion, output);
          }
        }
        RunAllKeeps(fs1, rows[1..], step, (a, b) => Extends(a, b));
      }
    }
  }

  /** `p` is the destination of a data row whose fields can be read. */
  ghost predicate IsRowDestination(rows: seq<seq<string>>, textIndex: Option<nat>, output: Path, p: Path)
  {
    exists i :: 0 <= i < |rows| && ExtractRow(rows[i], textIndex).Some? &&
      p == RowDestination(ExtractRow(rows[i], textIndex).value, output)
  }

  function RowDestination(f: RowFields, output: Path): Path
  {
    Destination(output, f.character, f.audioEmotion, ParsePath(f.audioPath))
  }

  /** A row's task creates at most the file at that row's destination. */
  lemma RouteRowCreatesOnlyDestination(output: Path, textIndex: Option<nat>, a: FileSystem, row: seq<string>)
    ensures forall p :: p in RouteRow(output, textIndex, a, row).fs.files && p !in a.files ==>
      ExtractRow(row, textIndex).Some? && p == RowDestination(ExtractRow(row, textIndex).value, output)
  {
  }

  /** Every file classification creates lies at the destination of some data row. */
  lemma ClassificationCreatesOnlyDestinations(fs: FileSystem, logFile: Path, output: Path)
    requires logFile in fs.files && MakeDirs(fs, output).Some?
    ensures var rows := CsvRows(fs.files[logFile]);
      forall p :: p in Classification(fs, logFile, output).fs.files && p !in fs.files ==>
        |rows| > 0 && IsRowDestination(rows[1..], ColumnIndex(rows[0], TextEmotionColumn), output, p)
  {
    var fs1 := MakeDirs(fs, output).value;
    var rows := CsvRows(fs1.files[logFile]);
    if rows != [] {
      var textIndex := ColumnIndex(rows[0], TextEmotionColumn);
      var data := rows[1..];
      var step := RowStep(output, textIndex);
      var rel := (a: FileSystem, b: FileSystem) =>
        forall p :: p in b.files && p !in a.files ==> IsRowDestination(data, textIndex, output, p);
      forall a, i | 0 <= i < |data| ensures rel(a, step(a, data[i]).fs) {
        RouteRowCreatesOnlyDestination(output, textIndex, a, data[i]);
      }
      RunAllKeeps(fs1, data, step, rel);
    }
  }
  /** A path with no slash is at most one component. */
  lemma ParseWithoutSlash(s: string)
    requires '/' !in s
    ensures ParsePath(s) == if s == "" || s == "." then [] else [s]
  {
    SplitWithoutSeparator(s, '/');
    assert [s][1..] == [];
  }

  /** With slash-free character and emotion the bucket folder lies at most two levels below the
      output folder, and the destination is one more level down. */
  lemma FolderLayout(output: Path, character: string, audioEmotion: string, src: Path)
    requires '/' !in character && '/' !in audioEmotion && '/' !in Name(src)
    ensures var folder := EmotionFolder(output, character, audioEmotion);
      && output <= folder && |folder| <= |output| + 2
      && Destination(output, character, audioEmotion, src) == folder + [TaggedName(audioEmotion, Name(src))]
  {
    ParseWithoutSlash(character);
    ParseWithoutSlash(audioEmotion);
    var folder := EmotionFolder(output, character, audioEmotion);
    var tagged := TaggedName(audioEmotion, Name(src));
    assert tagged[0] == '【';
    assert '/' !in tagged;
    SimpleNameParses(folder, tagged);
  }

  /** Rows the idempotence argument covers: a slash-free character and emotion (as every ledger
      row written by the recognition stage has), neither of them "..", and a source outside the
      output folder. Source and output are both plain and both absolute or both relative, so that
      "outside" as spelled is outside on disk. */
  predicate Routable(f: RowFields, output: Path)
  {
    var src := ParsePath(f.audioPath);
    && '/' !in f.character && '/' !in f.audioEmotion
    && f.character != ".." && f.audioEmotion != ".."
    && Plain(src) && Plain(output) && (Absolute(src) <==> Absolute(output))
    && !(output < src)
  }

  ghost predicate RowsRoutable(rows: seq<seq<string>>, textIndex: Option<nat>, output: Path)
  {
    forall i :: 0 <= i < |rows| && ExtractRow(rows[i], textIndex).Some? ==>
      Routable(ExtractRow(rows[i], textIndex).value, output)
  }

  /** `b` extends `a` only strictly inside `output`. */
  ghost predicate GrowsUnder(a: FileSystem, b: FileSystem, output: Path)
  {
    && Extends(a, b)
    && (forall p :: p in b.files && p !in a.files ==> output < p)
    && (forall p :: p in b.dirs && p !in a.dirs ==> output < p)
  }

  /** Once the output folder exists, routing a row only adds files and folders inside it. */
  lemma RouteGrows(fs: FileSystem, f: RowFields, output: Path)
    requires Prefixes(output) <= fs.dirs && Routable(f, output)
    ensures GrowsUnder(fs, Route(fs, f.audioPath, f.character, f.audioEmotion, f.textEmotion, output).fs, output)
  {
    var src := ParsePath(f.audioPath);
    NameOfParsedPath(f.audioPath);
    FolderLayout(output, f.character, f.audioEmotion, src);
    var folder := EmotionFolder(output, f.character, f.audioEmotion);
    var r := Route(fs, f.audioPath, f.character, f.audioEmotion, f.textEmotion, output);
    if r.outcome !in {SourceMissing, EmotionMismatch, FolderFailed} {
      MakeDirsBelow(fs, output, folder);
    }
  }

  /** Creating a folder below an existing `output` adds only folders strictly inside `output`. */
  lemma MakeDirsBelow(fs: FileSystem, output: Path, folder: Path)
    requires Prefixes(output) <= fs.dirs && output <= folder && MakeDirs(fs, folder).Some?
    ensures forall q :: q in MakeDirs(fs, folder).value.dirs && q !in fs.dirs ==> output < q
  {
    forall k | 1 <= k <= |output| ensures folder[..k] in fs.dirs {
      assert folder[..k] == output[..k];
      assert output[..k] in Prefixes(output);
    }
  }

  /** A row routed once is stable: routing it again, in any later state that grew only inside
      the output folder, changes nothing. */
  lemma RouteSettles(fs: FileSystem, next: FileSystem, last: FileSystem, f: RowFields, output: Path)
    requires Prefixes(output) <= fs.dirs && Routable(f, output)
    requires next == Route(fs, f.audioPath, f.character, f.audioEmotion, f.textEmotion, output).fs
    requires GrowsUnder(next, last, output)
    ensures Route(last, f.audioPath, f.character, f.audioEmotion, f.textEmotion, output).fs == last
  {
    var src := ParsePath(f.audioPath);
    var folder := EmotionFolder(output, f.character, f.audioEmotion);
    var dst := Destination(output, f.character, f.audioEmotion, src);
    var first := Route(fs, f.audioPath, f.character, f.audioEmotion, f.textEmotion, output);
    var again := Route(last, f.audioPath, f.character, f.audioEmotion, f.textEmotion, output);
    RouteGrows(fs, f, output);
    GrowsUnderTransitive(fs, next, last, output);
    GrowsUnderOutside(fs, last, output, src);
    if again.outcome !in {SourceMissing, EmotionMismatch, FolderFailed} {
      assert first.outcome !in {SourceMissing, EmotionMismatch};
      assert MakeDirs(fs, folder).Some?;
      assert first.outcome != FolderFailed;
      assert Prefixes(folder) <= last.dirs;
      assert last.dirs + Prefixes(folder) == last.dirs;
      assert MakeDirs(last, folder) == Some(last);
      NameOfParsedPath(f.audioPath);
      FolderLayout(output, f.character, f.audioEmotion, src);
      FirstCopyFailed(fs, next, last, src, folder, dst);
    }
  }

  /** When the second routing reaches the copy and finds the destination free, the first one
      failed to copy, and so does the second. */
  lemma FirstCopyFailed(fs: FileSystem, next: FileSystem, last: FileSystem, src: Path, folder: Path, dst: Path)
    requires MakeDirs(fs, folder).Some? && Parent(dst) == folder
    requires next == CopyIfAbsent(MakeDirs(fs, folder).value, src, dst).fs
    requires Extends(next, last) && Prefixes(folder) <= last.dirs
    requires src in last.files <==> src in fs.files
    ensures CopyIfAbsent(last, src, dst).fs == last
  {
    var fs1 := MakeDirs(fs, folder).value;
    var first := CopyIfAbsent(fs1, src, dst);
    if !Exists(last, dst) {
      assert !Exists(fs1, dst);
      assert first.outcome == CopyFailed;
      assert folder == [] || folder[..|folder|] in Prefixes(folder);
    }
  }

  lemma GrowsUnderTransitive(a: FileSystem, b: FileSystem, c: FileSystem, output: Path)
    requires GrowsUnder(a, b, output) && GrowsUnder(b, c, output)
    ensures GrowsUnder(a, c, output)
  {
  }

  /** Growth inside `output` leaves every path outside it as it was. */
  lemma GrowsUnderOutside(a: FileSystem, b: FileSystem, output: Path, p: Path)
    requires GrowsUnder(a, b, output) && !(output < p)
    ensures p in a.files <==> p in b.files
    ensures p in a.dirs <==> p in b.dirs
  {
  }

  /** Rows routed once from a state holding the output folder are stable in the final state:
      each row the pass reaches changes nothing when routed again. */
  lemma {:induction false} TailSettles(fs: FileSystem, rows: seq<seq<string>>, textIndex: Option<nat>, output: Path)
    requires Prefixes(output) <= fs.dirs && RowsRoutable(rows, textIndex, output)
    ensures var step := RowStep(output, textIndex);
      var last := RunAll(fs, rows, step).fs;
      && GrowsUnder(fs, last, output)
      && forall i :: 0 <= i < |rows| && (forall j :: 0 <= j < i ==> step(last, rows[j]).ok) ==>
           step(last, rows[i]).fs == last
    decreases |rows|
  {
    var step := RowStep(output, textIndex);
    var last := RunAll(fs, rows, step).fs;
    if rows != [] {
      var r := step(fs, rows[0]);
      if r.ok {
        var f := ExtractRow(rows[0], textIndex).value;
        RouteGrows(fs, f, output);
        forall i | 0 <= i < |rows[1..]| && ExtractRow(rows[1..][i], textIndex).Some?
          ensures Routable(ExtractRow(rows[1..][i], textIndex).value, output)
        {
          assert rows[1..][i] == rows[i + 1];
        }
        TailSettles(r.fs, rows[1..], textIndex, output);
        assert RunAll(r.fs, rows[1..], step).fs == last;
        GrowsUnderTransitive(fs, r.fs, last, output);
        RouteSettles(fs, r.fs, last, f, output);
        forall i | 0 <= i < |rows| && (forall j :: 0 <= j < i ==> step(last, rows[j]).ok)
          ensures step(last, rows[i]).fs == last
        {
          if i > 0 {
            assert rows[i] == rows[1..][i - 1];
            forall j | 0 <= j < i - 1 ensures step(last, rows[1..][j]).ok {
              assert rows[1..][j] == rows[j + 1];
            }
          }
        }
      } else {
        assert last == fs;
      }
    }
  }

  /** The ledger's data rows are all routable. */
  ghost predicate LedgerRoutable(fs: FileSystem, logFile: Path, output: Path)
  {
    logFile in fs.files ==>
      var rows := CsvRows(fs.files[logFile]);
      rows != [] ==> RowsRoutable(rows[1..], ColumnIndex(rows[0], TextEmotionColumn), output)
  }

  /** Running the classification a second time changes nothing: every clip it copied is found at
      its destination and skipped, and every row it skipped is skipped again. */
  lemma ClassificationIdempotent(fs: FileSystem, logFile: Path, output: Path)
    requires LedgerRoutable(fs, logFile, output)
    ensures var once := Classification(fs, logFile, output).fs;
      Classification(once, logFile, output).fs == once
  {
    var once := Classification(fs, logFile, output).fs;
    if Exists(fs, logFile) && MakeDirs(fs, output).Some? {
      var fs1 := MakeDirs(fs, output).value;
      MakeDirsIdempotent(fs, output);
      if logFile in fs1.files && CsvRows(fs1.files[logFile]) != [] {
        var rows := CsvRows(fs1.files[logFile]);
        var textIndex := ColumnIndex(rows[0], TextEmotionColumn);
        var step := RowStep(output, textIndex);
        assert Prefixes(output) <= fs1.dirs;
        TailSettles(fs1, rows[1..], textIndex, output);
        assert GrowsUnder(fs1, once, output);
        forall k | 1 <= k <= |output| ensures output[..k] !in once.files {
          assert output[..k] in fs1.dirs;
        }
        assert once.dirs + Prefixes(output) == once.dirs;
        assert MakeDirs(once, output) == Some(once);
        RunAllStable(once, rows[1..], step);
      }
    }
  }
}
