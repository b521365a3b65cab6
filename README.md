# RefAudioEmoTagger, modelled in Dafny

RefAudioEmoTagger prepares reference clips for voice cloning. It works in four stages:

1. **Recognition** (`recognize.py`) runs a speech emotion model over `.wav` clips. It writes one
   ledger line per clip, `path|emotion|confidence|parent-folder`. It can also derive a text
   emotion from the Chinese characters in each clip's file stem.
2. **Classification** (`classify.py`) reads that ledger. It copies every clip whose emotions
   agree into `output/<character>/<emotion>/【<emotion>】<name>`.
3. **Copy filter** (`preprocess_audio.py`) copies `.wav` files whose duration lies within a
   closed interval. Copies go next to the source as `filtered_<name>`, or into a mirrored tree
   under a destination folder.
4. **Move/delete filter** (`audio_duration_filter.py`) moves every `.wav` file lasting 3 to 10
   seconds into one flat destination folder. It deletes every other `.wav` file.

The model treats the file system as a value: a map from paths to contents plus a set of
directories (`Fs.FileSystem`). Each stage is a Dafny function from the starting file system to a
`Run`. A `Run` is the file system the stage leaves behind plus whether it ran to the end. A run
that ends early means an exception escaped, and the changes made before it are kept.

The Python loops become Dafny methods, each proved equal to that function. The stages' promises
are lemmas about the functions:

- frames: what a pass may change;
- idempotence of the classification;
- the exact keep/reject rules;
- destination layouts;
- round-trips of the ledger format;
- the first-maximum choice of a top label.

Several things become parameters of the model:

- the speech model and the text classifier (`string -> Recognition`);
- the audio duration probe (`Contents -> Option<real>`, `None` where decoding raises);
- `os.walk` (a list of directories with their file names);
- `str(float)` (`real -> string`).

Modules:

| module | file | covers |
|---|---|---|
| `Wrappers` | `wrappers.dfy` | `Option` |
| `Text` | `text.dfy` | `str.split`/`join`, `endswith`, POSIX `basename`, `dirname`, `splitext`, line reading |
| `Fs` | `filesystem.dfy` | paths, `makedirs`/`mkdir(parents=True)`, `shutil.copy`/`copy2`/`move`, `os.remove`, the fold `RunAll` |
| `Walk` | `walk.dfy` | the `.wav` files an `os.walk` snapshot yields |
| `Recognize` | `recognize.dfy` | `recognize.py` |
| `Classify` | `classify.dfy` | `classify.py` |
| `Preprocess` | `preprocess_audio.dfy` | `filter_audio` in `preprocess_audio.py` |
| `DurationFilter` | `audio_duration_filter.dfy` | `audio_duration_filter.py` |

Where the code is followed rather than the behaviour one might expect:

- **A failed duration probe aborts the rest of the pass.** Neither filter catches an exception,
  so a clip that cannot be decoded ends the pass. It is not skipped.
- **No nesting rule applies.** Destinations depend only on the paths shown in the code. No rule
  counts immediate children.
- **The ledger has no header.** `batch_infer` writes none, but `classify_audio_emotion` reads the
  first line as a header. Classifying a ledger straight from the recognition stage therefore
  never routes its first clip, and that clip's fields are what `ColumnIndex` searches for
  `TextEmotion`.
- **`filter_audio` returns nothing.** It has no count to report, so the model returns only a `Run`.
- **Extraction errors end the pass.** A data row with fewer than two fields makes
  `row[0]`/`row[1]` raise in the reading loop, and so does a text-emotion index beyond the row.
  Either ends the classification pass. An exception inside a row's task is only logged.

## Model

| member | source | states |
|---|---|---|
| Text.Split | classify.py:49 | At least one piece comes back. No piece holds the separator. Joining the pieces with the separator gives the input back. |
| Text.SplitJoin | recognize.py:62 | Splitting the join of separator-free parts gives back exactly those parts. |
| Text.BeforeFirst | recognize.py:70 | `s.split(sep)[0]` holds no separator and is a prefix of `s`. It is all of `s` when `s` has no separator, and otherwise a separator follows it. |
| Text.SplitAppend | classify.py:11 | A separator between two strings splits into the pieces of the first followed by the pieces of the second. |
| Text.AfterLastOf | recognize.py:62 | In `s + c + t` with no `c` in `t`, the last `c` is the one after `s`. |
| Text.Basename | recognize.py:62 | `os.path.basename` holds no slash and is a suffix of the path. It is the whole path when the path has no slash. |
| Text.BasenameAfterSlash | recognize.py:62 | A base name shorter than the path starts just after a slash, so it is the longest slash-free suffix. |
| Text.BasenameOf | recognize.py:62 | The base name of `d + c` is `c` when `c` has no slash and `d` is empty or ends in a slash. |
| Text.Dirname | recognize.py:62 | `os.path.dirname` is a prefix of the path. It is empty exactly when the path has no slash. |
| Text.DirnameShape | recognize.py:62 | The directory part ends at most at the last slash, and only slashes lie between them. A non-empty result ends in a non-slash character unless the head is all slashes, and then it is the whole head. |
| Text.DirnameOf | recognize.py:62 | The directory part of `d + c + "/" + f` is `d + c` when `c` ends in a non-slash character and `f` has no slash. |
| Text.DropExtension | recognize.py:106 | `splitext(b)[0]` is a prefix of `b`. When an extension is cut, the cut is at the last dot and some non-dot character precedes it. When a non-dot character precedes the last dot, exactly that extension is cut. A name without a dot is kept whole. |
| Text.Stem | recognize.py:106 | The stem holds no slash and is a prefix of the base name. |
| Text.StemOf | recognize.py:106 | The stem of `n.e` is `n` when `n` and `e` hold no slash, `e` holds no dot, and `n` is not only dots. |
| Text.CsvRow | classify.py:49 | A `|`-delimited row joins back to its line, no field holds `|`, and a blank line has no fields. |
| Text.CsvRowsOfLines | classify.py:48-49 | The reader yields one row per line of the file, and each row is that line's fields. |
| Text.Lines | classify.py:48-49 | No line of a file holds a newline. Empty text has no line. Text ending in a newline has the newline-separated pieces before the final empty one. Any other text has all its pieces, so a last line without a newline is still read. |
| Text.SplitLast | classify.py:48-49 | The last split piece is empty exactly when the text is empty or ends in the separator. |
| Text.SplitTerminatedThen | classify.py:48-49 | Newline-terminated lines followed by any text split into those lines, then the pieces of the text. |
| Text.LinesOfUnterminatedLast | classify.py:48-49 | Newline-terminated lines followed by a non-empty last line without a newline read back as those lines, then that last line. |
| Text.LinesOfRows | classify.py:48-49 | Text written as newline-terminated lines reads back as those lines, one per written line. |
| Fs.ParsePath | classify.py:11 | `PurePosixPath(s).parts`: every component is a simple name, except that the root anchor may come first. The anchor comes first exactly when the string starts with a slash. |
| Fs.ComponentsAppend | classify.py:11 | The components of two lists of pieces are the components of each, in order. |
| Fs.ParsePathAppend | classify.py:11 | For a non-empty `a`, the parts of `a/b` are the parts of `a` followed by those of `b`. The anchor of an absolute `b` is dropped. |
| Fs.ParsePathRoot | classify.py:11 | The parts of `/b` are the anchor followed by the parts of a relative `b`. A second leading slash adds nothing. |
| Fs.ParsePathCurrent | classify.py:11 | `""` and `"."` have no parts. With `SimpleNameParses`, `ParsePathRoot` and `ParsePathAppend`, this fixes the parts of every string, by splitting at its first slash. |
| Fs.SimpleNameParses | classify.py:22 | A simple name parses to itself as a single component, and `p / name` appends it. |
| Fs.JoinStr | classify.py:22 | `p / s` is the parts of `s` for an absolute `s`. For a relative `s` it is `p` followed by the parts of `s`. |
| Fs.Name | classify.py:25 | `Path.name` is empty for the empty path and the root. Otherwise the path is its parent followed by its name. |
| Fs.MakeDirs | classify.py:23 | `mkdir(parents=True, exist_ok=True)` fails exactly when the path or an ancestor is a regular file. Otherwise it adds exactly the path's prefixes as directories and changes no file. |
| Fs.MakeDirsIdempotent | classify.py:23 | Creating directories that already exist changes nothing. |
| Fs.Copy | classify.py:31 | `shutil.copy` fails exactly when the source is not a file, the target is the source or a directory, or the target's folder is missing. Otherwise the target gets the source's contents and nothing else changes. |
| Fs.Move | audio_duration_filter.py:9 | `shutil.move` puts the source's contents at the target and the source is gone. Nothing else changes. It fails exactly on a missing source, a missing target folder, or an existing target inside a destination directory. |
| Fs.Remove | audio_duration_filter.py:12 | `os.remove` fails exactly on a non-file. Otherwise only that file is gone. |
| Fs.RunAllKeeps | classify.py:58-64 | A reflexive, transitive relation kept by every step is kept by the whole sequential pass. |
| Walk.WavFiles | preprocess_audio.py:16 | A directory's entries are exactly its files whose names end in `.wav`. |
| Walk.WavEntries | audio_duration_filter.py:17-19 | The walk's entries are exactly the `.wav` files of its listed directories. |
| Recognize.FirstMaxIndex | recognize.py:69 | `scores.index(max(scores))`: no score exceeds the one at the index, and every earlier score is strictly smaller. |
| Recognize.TopEmotion | recognize.py:65-70 | The top emotion raises exactly when there are no scores or too few labels. The confidence is a score that no score exceeds, and the emotion holds no slash. |
| Recognize.TopEmotionAtFirstMaximum | recognize.py:69-70 | Any first-maximum index determines the result. The emotion is the label cut at its first slash, and a label without a slash is returned whole. |
| Recognize.ParentFolderName | recognize.py:62 | The folder field holds no slash. |
| Recognize.ParentFolderNameOf | recognize.py:62 | The folder field of `d/c/f` is `c`, for a non-empty slash-free `c`, a slash-free `f`, and a `d` that is empty or ends in a slash. |
| Recognize.ParentFolderChars | recognize.py:62 | The folder field is made of characters of the path. |
| Recognize.LedgerRowFields | recognize.py:62 | A ledger line ends in a newline. Provided no field holds `|`, splitting its body at `|` gives path, emotion, confidence and folder name. |
| Recognize.LedgerRowShape | recognize.py:62 | A ledger line built from newline-free fields has exactly one newline, at its end. |
| Recognize.Rows | recognize.py:57-63 | At most one line per clip is written. The pass completes exactly when every clip got its line. |
| Recognize.RowsAreClipRows | recognize.py:60-63 | The k-th written line is the k-th clip's line. The pass stops exactly at the first clip without one. |
| Recognize.CanOpenForWrite | recognize.py:56 | `open(output_file, 'w')` succeeds exactly when the path is neither the working directory, the root nor a directory, and its folder exists. |
| Recognize.BatchInfer | recognize.py:55-63 | An unopenable output leaves everything as it was. Otherwise the ledger file holds exactly the concatenation of the lines written before the first raising clip, and no other file changes. |
| Recognize.WriteRows | recognize.py:57-63 | The written text and the completion flag are those of the lines pass. |
| Recognize.LedgerReadsBack | recognize.py:55-63 | Reading the ledger line by line gives one line per written clip line, in loader order, provided no path, label or formatted score holds a newline. |
| Recognize.LedgerParsesBack | recognize.py:55-63 | Reading the ledger as `|`-delimited rows gives one row per recognized clip, in loader order. Each row is the clip's path, top emotion, formatted score and folder, provided no path, label or formatted score holds a newline or `|`. |
| Recognize.LedgerLineFields | recognize.py:62 | A ledger line read back without its newline is the row's path, emotion, confidence and folder name, provided none holds `|`. |
| Recognize.ContainsChinese | recognize.py:88-89 | True exactly when some character lies in U+4E00..U+9FFF. |
| Recognize.ChineseText | recognize.py:103-104 | The kept text is no longer than the input and consists of ideographs only. |
| Recognize.ChineseTextAppend | recognize.py:104 | Filtering distributes over concatenation, so the kept characters stay in input order. |
| Recognize.ChineseTextOfChar | recognize.py:104 | A single character is kept exactly when it is an ideograph. |
| Recognize.ChineseTextIdempotent | recognize.py:103-104 | Extracting twice is extracting once. |
| Recognize.ChineseTextNonEmpty | recognize.py:103-104 | Something is kept exactly when the text contains an ideograph. |
| Recognize.MapEmotion | recognize.py:119 | A key of the synonym table maps to its image. Any other label maps to itself. |
| Recognize.MapEmotionIdempotent | recognize.py:93-101 | Mapping a mapped label again changes nothing. |
| Recognize.TextLabel | recognize.py:109-120 | A stem without ideographs gets `""`. A non-empty label, or a raise, happens only for stems with ideographs. An empty score list for a stem with ideographs raises. |
| Recognize.TextLabelAtFirstMaximum | recognize.py:113-119 | For a stem with ideographs, the label is the mapped classifier label at the first maximal score. It raises exactly when that label does not exist. |
| Recognize.TagEntries | recognize.py:108-122 | The loop over entries returns `None` exactly when some entry's label raises. Otherwise every entry, in order, carries its own label. |
| Recognize.ProcessTextEmotion | recognize.py:92-123 | One text emotion per ledger entry, in entry order, stored in the TextEmotion column. The result is `None` exactly when some entry's classification raises. |
| Classify.ConsistencyPolicy | classify.py:17-20 | A row is skipped exactly when its text emotion is present, non-empty and different from the audio emotion, and the audio emotion is not `中立`. Neutral audio, empty or absent text, and agreement always proceed. |
| Classify.DestinationLayout | classify.py:22-27 | With plain names the destination is `output/character/emotion/【emotion】name`, in the emotion folder, and its name starts with `【emotion】`. |
| Classify.TaggedNameSimple | classify.py:26 | `【emotion】name` over a slash-free emotion and name is a single path component. |
| Classify.CopyIfAbsent | classify.py:29-36 | An existing destination is left alone. The copy happens exactly when the destination is free, the source is a regular file and the destination's folder exists. It adds the source's contents at the destination and nothing else. Otherwise it fails without change. |
| Classify.Route | classify.py:10-36 | A missing source, an emotion mismatch and a failing folder creation each hold exactly in their own outcome and change nothing. Folder creation fails exactly when a prefix of the emotion folder is a regular file. Otherwise the emotion folder and its ancestors are created. The copy happens exactly when the source is a regular file, the row is accepted, the folder can be made, and afterwards the destination is free and its folder exists. Only a copy changes a file, and it writes the source's contents to a destination that was free. |
| Classify.RouteCopies | classify.py:10-36 | An accepted row with a regular-file source, a slash-free emotion, a creatable emotion folder and a free destination is copied. The result is the source's contents at the destination plus the new folders. |
| Classify.RouteExtends | classify.py:10-36 | Routing never deletes or alters an existing file or folder, and the source keeps its contents. |
| Classify.RouteIdempotent | classify.py:29-36 | Routing the same row twice gives the same file system as routing it once. |
| Classify.ColumnIndex | classify.py:52-54 | `header.index("TextEmotion")` is `None` exactly when the column is absent, and otherwise the first position holding it. |
| Classify.ExtractRow | classify.py:58-62 | Extraction raises exactly for rows shorter than two fields or shorter than the text column. The character is `row[3]`, or `Unknown` for short rows. The text emotion is `None` without the column. |
| Classify.ClassifyAudioEmotion | classify.py:38-69 | The method computes `Classification`. A missing log file changes nothing, and no existing file or folder is altered. |
| Classify.ClassificationExtends | classify.py:38-69 | A classification pass never deletes or alters an existing file or folder. |
| Classify.RouteRowCreatesOnlyDestination | classify.py:58-63 | A row's task creates at most the file at that row's destination. |
| Classify.ClassificationCreatesOnlyDestinations | classify.py:56-64 | Every file the pass creates is the destination of some readable row after the header line. |
| Classify.RouteGrows | classify.py:22-36 | Once the output folder exists, routing a row adds files and folders only inside it. |
| Classify.RouteSettles | classify.py:29-36 | A row routed once is stable. Routing it again in any later state that grew only inside the output changes nothing. |
| Classify.TailSettles | classify.py:58-64 | Every row of a pass is stable in the pass's final state. |
| Classify.ClassificationIdempotent | classify.py:38-69 | Running the classification a second time changes nothing. |
| Preprocess.FilterDestination | preprocess_audio.py:22-28 | The destination's name is `filtered_<file>`. It lies beside the source without a destination folder, and at `dst_folder/<rel>/` with one. |
| Preprocess.FilterFile | preprocess_audio.py:17-39 | For one file, the disable flag changes nothing, and an undecodable source raises. A duration outside the closed interval creates no file. Inside the interval, a completed step has the source's contents at the destination. Nothing outside the destination changes. With a destination folder, a failing `makedirs` raises with nothing changed, and once it succeeds a decodable out-of-range clip completes the step with only the folders made. `FilterCopiesBeside` and `FilterCopiesToFolder` give the conditions under which an in-range step completes. |
| Preprocess.FilterAudio | preprocess_audio.py:10-39 | The method computes `Filtering`. A missing source folder changes nothing. |
| Preprocess.FilterDirectory | preprocess_audio.py:16-39 | The inner loop is the pass over the directory's `.wav` files. |
| Preprocess.FilteringDisabledIsNoOp | preprocess_audio.py:19-20 | With `disable_filter` the pass completes and changes nothing. |
| Preprocess.FilteringFrame | preprocess_audio.py:15-39 | No file or folder is removed. Every path not at or below a destination keeps its file, or its absence. |
| Preprocess.FilteringToFolderStaysInside | preprocess_audio.py:25-28 | With a destination folder, nothing outside it changes, and new folders are only its ancestors or lie under it. |
| Preprocess.FilterKeepsExactlyInRange | preprocess_audio.py:31-32 | When the destination was free, a completed step creates it exactly when `min <= duration <= max`. |
| Preprocess.FilterCopiesToFolder | preprocess_audio.py:24-32 | With a destination folder, once the mirrored folder is created, an in-range decodable clip is copied to `dst_folder/<rel>/filtered_<file>` and the pass goes on. Nothing else changes. |
| Preprocess.FilterCopiesBeside | preprocess_audio.py:22-23 | Without a destination folder, an in-range clip is copied to `root/filtered_<file>`, and nothing else changes. |
| Preprocess.FilteringCanOverwriteFilteredSource | preprocess_audio.py:15-32 | In a folder holding `<n>` and `filtered_<n>`, the copy of `<n>` replaces the source file `filtered_<n>`. |
| DurationFilter.FlatDestination | audio_duration_filter.py:21 | The destination is `dst_folder/<file>`, whatever sub-folder the file came from. |
| DurationFilter.ProcessFile | audio_duration_filter.py:5-13 | The probe decides. An undecodable clip raises. A rejected clip is deleted and nothing is created. A kept clip is moved with its contents, after which the source is gone. No folder changes, and only the source and the move target can change. |
| DurationFilter.ProcessAudioFiles | audio_duration_filter.py:15-22 | The method computes `Processing`. |
| DurationFilter.ProcessDirectory | audio_duration_filter.py:18-22 | The inner loop is the pass over the directory's `.wav` files. |
| DurationFilter.ProcessingFrame | audio_duration_filter.py:15-22 | No folder changes. Only sources of walked `.wav` files and paths at or below their destinations can change. |
| DurationFilter.ProcessingLeavesOtherFiles | audio_duration_filter.py:19 | A file not named `*.wav` outside the destination folder is untouched. |
| DurationFilter.ProcessMoves | audio_duration_filter.py:8-9 | A kept clip with a free destination ends up there with its contents, and its source is gone. |
| DurationFilter.ProcessingFlattensCollidingNames | audio_duration_filter.py:21 | Two kept clips with the same name in different sub-folders go to the same destination. The later one wins and both sources are gone. |

## Left out

- `webui.py`: it is the Gradio user interface and glue only.
- `rename_wav_with_txt`: its body is elided in `preprocess_audio.py`.
- `run_recognition` and the `AudioDataset`/`DataLoader` plumbing. The clip list, in loader order, is a parameter of `BatchInfer`. The existence check on the clip folder (recognize.py:74-76) is left to the caller.
- The speech emotion model, the text classifier and pydub's duration probe are oracle parameters. torchaudio loading and resampling and `play()` have no effect on the files and are not modelled.
- The thread pool in `classify.py` becomes a loop over the rows in ledger order. Rows are not independent: two rows with the same destination race between the existence check and the copy (classify.py:29-31), so either clip may end up there, or both may be copied in turn. The model resolves such collisions in ledger order. The earlier row's clip is kept and the later row finds the destination taken.
- asyncio/aiofiles in `recognize.py` become a sequential loop. `batch_infer` awaits each write in turn, so this keeps its order.
- Fs.ParsePath: a string starting with exactly two slashes keeps the anchor `//` in `pathlib`. The model gives it the anchor `/`, as for any other number of leading slashes.
- Paths are compared as spelled. The model does not resolve `..`, symbolic links, a doubled leading slash or the working directory behind a relative path, so two spellings of one file are two distinct paths. `Classify.Routable` therefore asks for plain (`..`-free) sources and output folder, both absolute or both relative, and no `..` as character or emotion.
- Floating point: scores and durations are `real`. The text form of a confidence is a parameter `show`.
- Logging, `print` and the argparse `__main__` blocks.
- csv quoting: a ledger line is split at every `|`. A blank line is an empty row.
- Newline translation (`\r\n`) when reading and writing text files.
- `os.walk` is a snapshot given as a parameter. Files a pass creates are not walked again, and the walk's order is the parameter's order.
- `copy2` metadata, file permissions and other OS-level failures beyond missing sources, missing folders and file/directory clashes.
- `audio_duration_filter.py` with a missing source folder walks nothing. That is the empty walk parameter.
- Preprocess.FilteringFrame: sources are unchanged only where no destination falls on them, not everywhere. Preprocess.FilteringCanOverwriteFilteredSource shows a source file that the pass overwrites.
- Classify.ClassificationIdempotent: proved only for ledgers whose rows satisfy `Routable`. Their character and emotion fields are slash-free and not `..`. Their sources lie outside the output folder, have no `..` component, and are absolute exactly when the output folder is. A character containing `/` or `..`, or a source inside the output tree under another spelling, makes the bucket folders depend on the file system.
