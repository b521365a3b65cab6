/**
 * The recognition stage (recognize.py): choosing the top label of a recognition
 * result, writing one ledger line per clip, and deriving a text emotion from
 * the Chinese characters in each clip's file stem. The speech emotion model and
 * the text classifier are oracles: functions from their input to a list of
 * labels with scores.
 */
module Recognize {
  import opened Wrappers
  import opened Text
  import opened Fs

  /** What a classifier returns for one input: parallel lists of labels and scores. */
  datatype Recognition = Recognition(labels: seq<string>, scores: seq<real>)

  /** `scores.index(max(scores))`: the first index holding the maximum score. */
  function FirstMaxIndex(scores: seq<real>): (k: nat)
    requires |scores| > 0
    ensures k < |scores|
    ensures forall j :: 0 <= j < |scores| ==> scores[j] <= scores[k]
    ensures forall j :: 0 <= j < k ==> scores[j] < scores[k]
  {
    if |scores| == 1 then 0
    else
      var k := FirstMaxIndex(scores[..|scores| - 1]);
      if scores[|scores| - 1] > scores[k] then |scores| - 1 else k
  }

  /** `_get_top_emotion_with_confidence`: the label at the first maximal score, cut at its first
      slash, with that score; `None` where Python raises (no scores, or too few labels). */
  function TopEmotion(r: Recognition): (top: Option<(string, real)>)
    ensures top.None? <==> |r.scores| == 0 || FirstMaxIndex(r.scores) >= |r.labels|
    ensures top.Some? ==> top.value.1 in r.scores
    ensures top.Some? ==> forall j :: 0 <= j < |r.scores| ==> r.scores[j] <= top.value.1
    ensures top.Some? ==> '/' !in top.value.0
  {
    if |r.scores| == 0 then None
    else
      var k := FirstMaxIndex(r.scores);
      if k >= |r.labels| then None else Some((BeforeFirst(r.labels[k], '/'), r.scores[k]))
  }

  /** The top emotion is determined by the first-maximum property alone: ties go to the
      earliest index, and a label without a slash is returned whole. */
  lemma TopEmotionAtFirstMaximum(r: Recognition, k: nat)
    requires k < |r.scores|
    requires forall j :: 0 <= j < |r.scores| ==> r.scores[j] <= r.scores[k]
    requires forall j :: 0 <= j < k ==> r.scores[j] < r.scores[k]
    ensures k >= |r.labels| ==> TopEmotion(r) == None
    ensures k < |r.labels| ==> TopEmotion(r).Some? && TopEmotion(r).value.1 == r.scores[k]
    ensures k < |r.labels| ==> BeforeFirst(r.labels[k], '/') == TopEmotion(r).value.0
    ensures k < |r.labels| && '/' !in r.labels[k] ==> TopEmotion(r).value.0 == r.labels[k]
  {
  }

  /** `os.path.basename(os.path.dirname(audio_path))`: the clip's containing folder. */
  function ParentFolderName(audioPath: string): (r: string)
    ensures '/' !in r
  {
    Basename(Dirname(audioPath))
  }

  /** The four fields of a clip's ledger line: path, emotion, confidence and containing folder. */
  function LedgerFields(audioPath: string, emotion: string, confidence: string): seq<string>
  {
    [audioPath, emotion, confidence, ParentFolderName(audioPath)]
  }

  /** The ledger line `batch_infer` writes for one clip: the fields joined by '|', then a newline. */
  function LedgerRow(audioPath: string, emotion: string, confidence: string): string
  {
    Join(LedgerFields(audioPath, emotion, confidence), '|') + "\n"
  }

  /** Splitting a ledger line at '|' gives back its four fields, provided the path, the emotion and
      the confidence hold no '|' (the folder name is cut from the path). */
  lemma LedgerRowFields(audioPath: string, emotion: string, confidence: string)
    requires '|' !in audioPath && '|' !in emotion && '|' !in confidence
    ensures var row := LedgerRow(audioPath, emotion, confidence);
      && |row| > 0 && row[|row| - 1] == '\n'
      && Split(row[..|row| - 1], '|') == [audioPath, emotion, confidence, ParentFolderName(audioPath)]
  {
    var folder := ParentFolderName(audioPath);
    ParentFolderChars(audioPath);
    assert '|' !in folder;
    var fields := [audioPath, emotion, confidence, folder];
    assert forall k :: 0 <= k < |fields| ==> '|' !in fields[k];
    SplitJoin(fields, '|');
    var row := LedgerRow(audioPath, emotion, confidence);
    assert row == Join(fields, '|') + "\n";
    assert row[..|row| - 1] == Join(fields, '|');
  }

  /** The line for one clip, or `None` when choosing its top emotion raises. */
  function ClipRow(audioPath: string, r: Recognition, show: real -> string): Option<string>
  {
    match TopEmotion(r)
    case None => None
    case Some((emotion, confidence)) => Some(LedgerRow(audioPath, emotion, show(confidence)))
  }

  /** The line of a clip given the oracles, as a function of the clip alone. */
  function RowFor(infer: string -> Recognition, show: real -> string): string -> Option<string>
  {
    clip => ClipRow(clip, infer(clip), show)
  }

  /** The lines written for the clips, in loader order, up to the first clip that has no line;
      the flag says that every clip had one. */
  function Rows(clips: seq<string>, rowOf: string -> Option<string>): (r: (seq<string>, bool))
    ensures |r.0| <= |clips|
    ensures r.1 <==> |r.0| == |clips|
    decreases |clips|
  {
    if clips == [] then ([], true)
    else
      match rowOf(clips[0])
      case None => ([], false)
      case Some(row) =>
        var rest := Rows(clips[1..], rowOf);
        ([row] + rest.0, rest.1)
  }

  /** The lines `batch_infer` writes. */
  function RecognizedRows(clips: seq<string>, infer: string -> Recognition, show: real -> string): (seq<string>, bool)
  {
    Rows(clips, RowFor(infer, show))
  }

  /** Each written line is the line of the clip at the same position, and the pass stops exactly
      at the first clip without one. */
  lemma {:induction false} RowsAreClipRows(clips: seq<string>, rowOf: string -> Option<string>)
    ensures var r := Rows(clips, rowOf);
      && (forall i :: 0 <= i < |r.0| ==> rowOf(clips[i]) == Some(r.0[i]))
      && (|r.0| < |clips| ==> rowOf(clips[|r.0|]).None?)
    decreases |clips|
  {
    if clips != [] && rowOf(clips[0]).Some? {
      var row := rowOf(clips[0]).value;
      var rest := Rows(clips[1..], rowOf);
      RowsAreClipRows(clips[1..], rowOf);
      var r := Rows(clips, rowOf);
      assert r.0 == [row] + rest.0;
      forall i | 0 <= i < |r.0| ensures rowOf(clips[i]) == Some(r.0[i]) {
        if i > 0 {
          assert r.0[i] == rest.0[i - 1] && clips[i] == clips[1..][i - 1];
        }
      }
      if |r.0| < |clips| {
        assert clips[|r.0|] == clips[1..][|rest.0|];
      }
    }
  }

  /** One more clip of the loop: the pass from clip `i` on is that clip's line, if it has one,
      followed by the pass from clip `i + 1` on. */
  lemma RowsStep(clips: seq<string>, i: nat, rowOf: string -> Option<string>)
    requires i < |clips|
    ensures var rest := Rows(clips[i + 1..], rowOf);
      Rows(clips[i..], rowOf) == if rowOf(clips[i]).None? then ([], false) else ([rowOf(clips[i]).value] + rest.0, rest.1)
  {
    assert clips[i..][0] == clips[i] && clips[i..][1..] == clips[i + 1..];
  }

  /** `open(output_file, 'w')` succeeds when the path is not a directory and its directory exists:
      it truncates an existing file or creates a new one, and fails on the working directory, on the
      root, on a directory and below a missing folder or a regular file. */
  function CanOpenForWrite(fs: FileSystem, p: Path): (r: bool)
    ensures r ==> |p| > 0 && p != ["/"] && p !in fs.dirs
    ensures !IsDir(fs, Parent(p)) ==> !r
    ensures |p| > 0 && p != ["/"] && p !in fs.dirs && IsDir(fs, Parent(p)) ==> r
  {
    !IsDir(fs, p) && IsDir(fs, Parent(p))
  }

  /** `batch_infer`: truncates the ledger file, then appends one line per clip in loader order;
      a clip whose result has no top emotion raises and ends the pass, leaving the lines written
      so far. */
  method BatchInfer(fs: FileSystem, outputFile: Path, clips: seq<string>,
                    infer: string -> Recognition, show: real -> string)
    returns (fs': FileSystem, ok: bool)
    ensures !CanOpenForWrite(fs, outputFile) ==> fs' == fs && !ok
    ensures CanOpenForWrite(fs, outputFile) ==>
      fs' == fs.(files := fs.files[outputFile := Concat(RecognizedRows(clips, infer, show).0)])
      && ok == RecognizedRows(clips, infer, show).1
  {
    if !CanOpenForWrite(fs, outputFile) {
      return fs, false;
    }
    var content;
    content, ok := WriteRows(clips, RowFor(infer, show));
    fs' := fs.(files := fs.files[outputFile := content]);
  }

  /** The loop of `batch_infer`: the text appended to the ledger, one line per clip, and whether
      every clip had a line. */
  method WriteRows(clips: seq<string>, rowOf: string -> Option<string>) returns (content: string, ok: bool)
    ensures content == Concat(Rows(clips, rowOf).0)
    ensures ok == Rows(clips, rowOf).1
  {
    content := "";
    ghost var all := Rows(clips, rowOf);
    ghost var written: seq<string> := [];
    var i := 0;
    assert clips[i..] == clips;
    assert all.0 == written + all.0;
    while i < |clips|
      invariant 0 <= i <= |clips|
      invariant all.0 == written + Rows(clips[i..], rowOf).0
      invariant all.1 == Rows(clips[i..], rowOf).1
      invariant content == Concat(written)
    {
      ghost var rest := Rows(clips[i + 1..], rowOf);
      RowsStep(clips, i, rowOf);
      var line := rowOf(clips[i]);
      if line.None? {
        assert all.0 == written + [] == written;
        return content, false;
      }
      var row := line.value;
      assert written + ([row] + rest.0) == (written + [row]) + rest.0;
      ConcatAppend(written, row);
      written := written + [row];
      content := content + row;
      i := i + 1;
    }
    assert clips[i..] == [];
    assert all.0 == written + [] == written;
    ok := true;
  }

  /** The folder name is made of characters of the path. */
  lemma ParentFolderChars(audioPath: string)
    ensures forall c :: c in ParentFolderName(audioPath) ==> c in audioPath
  {
    var d := Dirname(audioPath);
    var b := Basename(d);
    assert b == ParentFolderName(audioPath);
    forall c | c in b ensures c in audioPath {
      var k :| 0 <= k < |b| && b[k] == c;
      assert d[|d| - |b|..][k] == c;
      assert audioPath[|d| - |b| + k] == d[|d| - |b| + k];
    }
  }

  /** The parent folder name of `d/c/f` is `c`, for a folder name `c` and a file name `f`. */
  lemma ParentFolderNameOf(d: string, c: string, f: string)
    requires c != "" && '/' !in c && '/' !in f
    requires d == "" || d[|d| - 1] == '/'
    ensures ParentFolderName(d + c + "/" + f) == c
  {
    assert c[|c| - 1] in c;
    DirnameOf(d, c, f);
    BasenameOf(d, c);
  }

  /** A ledger line ends in its only newline when its fields hold none. */
  lemma LedgerRowShape(audioPath: string, emotion: string, confidence: string)
    requires '\n' !in audioPath && '\n' !in emotion && '\n' !in confidence
    ensures var row := LedgerRow(audioPath, emotion, confidence);
      |row| > 0 && row[|row| - 1] == '\n' && '\n' !in row[..|row| - 1]
  {
    var row := LedgerRow(audioPath, emotion, confidence);
    var fields := LedgerFields(audioPath, emotion, confidence);
    ParentFolderChars(audioPath);
    assert '\n' !in fields[3];
    JoinAvoids(fields, '|', '\n');
    assert row == Join(fields, '|') + "\n";
    assert row[..|row| - 1] == Join(fields, '|');
  }

  /** Reading the ledger back line by line gives one line per recognized clip, in order, provided
      no path, label or formatted score holds a newline. */
  lemma LedgerReadsBack(clips: seq<string>, infer: string -> Recognition, show: real -> string)
    requires forall i :: 0 <= i < |clips| ==> '\n' !in clips[i]
    requires forall i, j :: 0 <= i < |clips| && 0 <= j < |infer(clips[i]).labels| ==> '\n' !in infer(clips[i]).labels[j]
    requires forall x :: '\n' !in show(x)
    ensures var rows := RecognizedRows(clips, infer, show).0;
      && |Lines(Concat(rows))| == |rows|
      && forall i :: 0 <= i < |rows| ==> Lines(Concat(rows))[i] + "\n" == rows[i]
  {
    var rows := RecognizedRows(clips, infer, show).0;
    RowsAreClipRows(clips, RowFor(infer, show));
    forall k | 0 <= k < |rows|
      ensures |rows[k]| > 0 && rows[k][|rows[k]| - 1] == '\n' && '\n' !in rows[k][..|rows[k]| - 1]
    {
      var r := infer(clips[k]);
      var top := TopEmotion(r).value;
      var m := FirstMaxIndex(r.scores);
      assert top.0 == BeforeFirst(r.labels[m], '/');
      assert '\n' !in top.0;
      assert rows[k] == LedgerRow(clips[k], top.0, show(top.1));
      LedgerRowShape(clips[k], top.0, show(top.1));
    }
    LinesOfRows(rows);
  }

  /** Reading the ledger back as `|`-delimited rows gives, for each recognized clip in order, its
      path, emotion, formatted score and folder, provided no path, label or formatted score holds
      a newline or a '|'. */
  lemma LedgerParsesBack(clips: seq<string>, infer: string -> Recognition, show: real -> string)
    requires forall i :: 0 <= i < |clips| ==> '\n' !in clips[i] && '|' !in clips[i]
    requires forall i, j :: 0 <= i < |clips| && 0 <= j < |infer(clips[i]).labels| ==>
      '\n' !in infer(clips[i]).labels[j] && '|' !in infer(clips[i]).labels[j]
    requires forall x :: '\n' !in show(x) && '|' !in show(x)
    ensures var rows := RecognizedRows(clips, infer, show).0;
      var table := CsvRows(Concat(rows));
      && |table| == |rows|
      && forall i :: 0 <= i < |rows| ==>
           && TopEmotion(infer(clips[i])).Some?
           && var top := TopEmotion(infer(clips[i])).value;
              table[i] == LedgerFields(clips[i], top.0, show(top.1))
  {
    var rows := RecognizedRows(clips, infer, show).0;
    var lines := Lines(Concat(rows));
    LedgerReadsBack(clips, infer, show);
    RowsAreClipRows(clips, RowFor(infer, show));
    forall i | 0 <= i < |rows|
      ensures TopEmotion(infer(clips[i])).Some?
      ensures var top := TopEmotion(infer(clips[i])).value;
        CsvRow(lines[i]) == LedgerFields(clips[i], top.0, show(top.1))
    {
      var r := infer(clips[i]);
      var top := TopEmotion(r).value;
      var m := FirstMaxIndex(r.scores);
      assert top.0 == BeforeFirst(r.labels[m], '/');
      assert '|' !in top.0;
      assert rows[i] == LedgerRow(clips[i], top.0, show(top.1));
      LedgerLineFields(clips[i], top.0, show(top.1), lines[i]);
    }
  }

  /** A ledger line read back without its newline gives the row's four fields. */
  lemma LedgerLineFields(audioPath: string, emotion: string, confidence: string, line: string)
    requires '|' !in audioPath && '|' !in emotion && '|' !in confidence
    requires line + "\n" == LedgerRow(audioPath, emotion, confidence)
    ensures CsvRow(line) == LedgerFields(audioPath, emotion, confidence)
  {
    var row := LedgerRow(audioPath, emotion, confidence);
    LedgerRowFields(audioPath, emotion, confidence);
    assert line == row[..|row| - 1];
  }

  /** Characters of the CJK Unified Ideographs block, U+4E00 to U+9FFF. */
  predicate IsCjk(c: char)
  {
    '\U{4E00}' <= c <= '\U{9FFF}'
  }

  /** `contains_chinese`: `any('一' <= char <= '鿿' for char in text)`. */
  function ContainsChinese(text: string): (r: bool)
    ensures r <==> exists i :: 0 <= i < |text| && IsCjk(text[i])
    decreases |text|
  {
    if text == [] then false
    else
      var rest := ContainsChinese(text[1..]);
      assert forall i :: 1 <= i < |text| ==> text[i] == text[1..][i - 1];
      IsCjk(text[0]) || rest
  }

  /** `get_chinese_text`: the characters `c` with `contains_chinese(c)`, in order. */
  function ChineseText(text: string): (r: string)
    ensures |r| <= |text|
    ensures forall i :: 0 <= i < |r| ==> IsCjk(r[i])
    decreases |text|
  {
    if text == [] then ""
    else (if ContainsChinese([text[0]]) then [text[0]] else "") + ChineseText(text[1..])
  }

  /** Filtering distributes over concatenation: the kept characters stay in their order. */
  lemma {:induction false} ChineseTextAppend(a: string, b: string)
    ensures ChineseText(a + b) == ChineseText(a) + ChineseText(b)
    decreases |a|
  {
    if a == [] {
      assert a + b == b;
    } else {
      assert (a + b)[0] == a[0];
      assert (a + b)[1..] == a[1..] + b;
      ChineseTextAppend(a[1..], b);
    }
  }

  /** A single character is kept exactly when it is an ideograph. */
  lemma ChineseTextOfChar(c: char)
    ensures ChineseText([c]) == if IsCjk(c) then [c] else []
  {
    assert [c][1..] == [];
  }

  /** A text of ideographs only is kept whole. */
  lemma {:induction false} ChineseTextKeepsIdeographs(text: string)
    requires forall i :: 0 <= i < |text| ==> IsCjk(text[i])
    ensures ChineseText(text) == text
    decreases |text|
  {
    if text != [] {
      assert ContainsChinese([text[0]]);
      ChineseTextKeepsIdeographs(text[1..]);
    }
  }

  /** Extracting twice is extracting once. */
  lemma ChineseTextIdempotent(text: string)
    ensures ChineseText(ChineseText(text)) == ChineseText(text)
  {
    ChineseTextKeepsIdeographs(ChineseText(text));
  }

  /** Something is kept exactly when the text contains an ideograph. */
  lemma {:induction false} ChineseTextNonEmpty(text: string)
    ensures ChineseText(text) != [] <==> ContainsChinese(text)
    decreases |text|
  {
    if text != [] {
      ChineseTextNonEmpty(text[1..]);
      assert ContainsChinese([text[0]]) == IsCjk(text[0]);
    }
  }

  /** `emotion_mapping`: the text classifier's labels renamed to the speech model's vocabulary. */
  const EmotionMapping: map<string, string> := map[
    "恐惧" := "恐惧",
    "愤怒" := "生气",
    "厌恶" := "厌恶",
    "喜好" := "开心",
    "悲伤" := "难过",
    "高兴" := "开心",
    "惊讶" := "吃惊"
  ]

  /** `emotion_mapping.get(label, label)`. */
  function MapEmotion(raw: string): (r: string)
    ensures raw in EmotionMapping ==> r == EmotionMapping[raw]
    ensures raw !in EmotionMapping ==> r == raw
  {
    if raw in EmotionMapping then EmotionMapping[raw] else raw
  }

  /** Mapping a mapped label again changes nothing: no image is a key with a different image. */
  lemma MapEmotionIdempotent(raw: string)
    ensures MapEmotion(MapEmotion(raw)) == MapEmotion(raw)
  {
    if raw in EmotionMapping {
      var v := EmotionMapping[raw];
      assert v in {"恐惧", "生气", "厌恶", "开心", "难过", "吃惊"};
    }
  }

  /** One ledger entry as `process_text_emotion` sees the ledger's columns. */
  datatype LedgerEntry = LedgerEntry(audioPath: string, audioEmotion: string, confidence: string,
                                     parentFolder: string, textEmotion: Option<string>)

  /** The text emotion of one audio path: "" for a stem without ideographs, otherwise the mapped top
      label of the classifier on the stem's ideographs; `None` where choosing the top label raises. */
  function TextLabel(audioPath: string, classifier: string -> Recognition): (r: Option<string>)
    ensures !ContainsChinese(Stem(audioPath)) ==> r == Some("")
    ensures r.Some? && r.value != "" ==> ContainsChinese(Stem(audioPath))
    ensures r.None? ==> ContainsChinese(Stem(audioPath))
    ensures ContainsChinese(Stem(audioPath)) && |classifier(ChineseText(Stem(audioPath))).scores| == 0 ==> r.None?
  {
    var text := Stem(audioPath);
    if !ContainsChinese(text) then Some("")
    else
      var res := classifier(ChineseText(text));
      if |res.scores| == 0 then None
      else
        var k := FirstMaxIndex(res.scores);
        if k >= |res.labels| then None else Some(MapEmotion(res.labels[k]))
  }

  /** For a stem with ideographs, the text emotion is the mapped label at the classifier's first
      maximal score (no slash cutting here), and raising happens exactly where no such label exists. */
  lemma TextLabelAtFirstMaximum(audioPath: string, classifier: string -> Recognition, k: nat)
    requires ContainsChinese(Stem(audioPath))
    requires var res := classifier(ChineseText(Stem(audioPath)));
      && k < |res.scores|
      && (forall j :: 0 <= j < |res.scores| ==> res.scores[j] <= res.scores[k])
      && (forall j :: 0 <= j < k ==> res.scores[j] < res.scores[k])
    ensures var res := classifier(ChineseText(Stem(audioPath)));
      TextLabel(audioPath, classifier) == if k < |res.labels| then Some(MapEmotion(res.labels[k])) else None
  {
  }

  /** The per-entry text emotion as a function of the audio path alone. */
  function LabelFor(classifier: string -> Recognition): string -> Option<string>
  {
    audioPath => TextLabel(audioPath, classifier)
  }

  /** The loop of `process_text_emotion` for any labelling: the entries tagged in order, or
      `None` at the first entry whose label raises. */
  method TagEntries(df: seq<LedgerEntry>, labelOf: string -> Option<string>) returns (r: Option<seq<LedgerEntry>>)
    ensures r.None? <==> exists i :: 0 <= i < |df| && labelOf(df[i].audioPath).None?
    ensures r.Some? ==> |r.value| == |df|
    ensures r.Some? ==> forall i :: 0 <= i < |df| ==>
      r.value[i] == df[i].(textEmotion := Some(labelOf(df[i].audioPath).value))
  {
    var mapped: seq<string> := [];
    var i := 0;
    while i < |df|
      invariant 0 <= i <= |df|
      invariant |mapped| == i
      invariant forall j :: 0 <= j < i ==> labelOf(df[j].audioPath) == Some(mapped[j])
    {
      var emotion := labelOf(df[i].audioPath);
      if emotion.None? {
        return None;
      }
      mapped := mapped + [emotion.value];
      i := i + 1;
    }
    r := Some(seq(|df|, j requires 0 <= j < |df| => df[j].(textEmotion := Some(mapped[j]))));
  }

  /** `process_text_emotion`: one text emotion per ledger entry, in entry order, stored in the
      entries' TextEmotion column; `None` when the classifier's result for some entry raises. */
  method ProcessTextEmotion(df: seq<LedgerEntry>, classifier: string -> Recognition)
    returns (r: Option<seq<LedgerEntry>>)
    ensures r.None? <==> exists i :: 0 <= i < |df| && TextLabel(df[i].audioPath, classifier).None?
    ensures r.Some? ==> |r.value| == |df|
    ensures r.Some? ==> forall i :: 0 <= i < |df| ==>
      r.value[i] == df[i].(textEmotion := Some(TextLabel(df[i].audioPath, classifier).value))
  {
    r := TagEntries(df, LabelFor(classifier));
  }
}
