# Image batch converter: discovery, per-item decision and counters

This project models the core of `image_converter_gui.py`. The program is a
desktop tool that converts every supported image under an input folder to JPG
or PNG. Conversion runs on a thread pool. The model covers three parts of it:

- **Discovery.** The preparation thread builds the work list. Without
  recursion it uses `os.listdir` and keeps direct children that are regular
  files. With recursion it uses `os.walk` and keeps every non-directory name
  at any depth. A name is kept when its `os.path.splitext` extension, in ASCII
  lowercase, is in `SUPPORTED_EXTS`. Modules: `Paths`, `Discovery`.
- **The per-item decision.** A worker computes the destination (same folder,
  a flat output folder, or the output folder plus the path relative to the
  input root). It then creates the folder, skips an existing destination
  unless overwrite is on, opens the image, and skips a source whose detected
  format equals the target name. Otherwise it saves: JPEG in RGB at quality
  100 without optimisation, or PNG. Any exception counts as an error.
  `Policy.Decide` states this as one pure function.
  `Coordinator.ProcessSingleImage` is the worker itself, written step by step
  against it.
- **The counters.** Five counters are shared under one lock
  (`Counters.JobCounters`). Workers bump `converted`, `skipped` or `errors`.
  The coordinator loop increments `processed` once per completed task and
  reads the counters back in the same locked section. The thread pool is
  replaced by an interleaving of locked sections given as input
  (`Schedule.ValidSchedule`): each task records one outcome and completes
  once, and it completes only after it has recorded. Over every such
  interleaving the model proves two things. At every locked point,
  `processed <= converted + skipped + errors <= total`. After the pool
  drains, `processed == total`, the three outcome counters add up to it, and
  they depend only on the multiset of outcomes.

The filesystem and the image library are inputs. A directory listing is
`Discovery.Listing`. What one worker meets is `Policy.ItemEnv`: whether
`makedirs` raises, the files that exist, what `Image.open` reports, and
whether the save raises. Directories are normalised segment lists, so joining
the output folder with the relative path `.` gives the output folder itself.

Three behaviours of the code that the model keeps:

- The counters do not keep `processed == converted + skipped + errors` while
  tasks run: the outcome counters may run ahead of `processed`. The model
  proves the inequality at every point and the equality at the end.
- A root that is not a directory makes `os.listdir` raise. The preparation
  thread then dies and no summary appears. In recursive mode `os.walk`
  reports nothing and the run ends with "No supported images found."
- In recursive mode every non-directory name is kept, not only regular files.

## Model

| member | source | states |
|---|---|---|
| Paths.Lower | image_converter_gui.py:155 | `.lower()` on an extension keeps the length and lowercases each character (ASCII) |
| Paths.LastDot | image_converter_gui.py:155 | the index of the last `.` of a name, or -1: a dot sits there and no dot follows it |
| Paths.SplitExt | image_converter_gui.py:155 | `os.path.splitext`: stem and extension concatenate to the name; a non-empty extension starts with its only dot and follows a stem that is not all dots; the extension is empty exactly when every dot in the name has only dots before it |
| Paths.Qualifies | image_converter_gui.py:155 | the discovery filter; a name that passes it has a non-empty extension after a stem that is not all dots |
| Paths.QualifiesIff | image_converter_gui.py:155 | a name passes the filter exactly when, at some position after a non-dot prefix, the rest of it lowercases to a supported extension |
| Paths.LeadingDotExamples | image_converter_gui.py:155 | `.png` and `..png` have no extension, so they are not kept |
| Paths.LastPartExamples | image_converter_gui.py:155 | the extension is the last dotted part and its case is ignored: `photo.tar.JPG` is kept, `scan.png.txt` is not |
| Paths.SplitExtLower | image_converter_gui.py:155 | splitting a lowercased name gives the lowercased stem and extension |
| Paths.LowerIdempotent | image_converter_gui.py:155 | lowercasing twice is lowercasing once |
| Paths.QualifiesCaseInsensitive | image_converter_gui.py:155 | the filter gives the same answer for a name and its lowercase form |
| Paths.SplitExtJoin | image_converter_gui.py:203-204 | a stem that is not all dots plus a one-dot extension splits back into exactly those two parts |
| Paths.CommonPrefixLength | image_converter_gui.py:209 | the length of the longest common leading run of segments of two directories |
| Paths.RelPath | image_converter_gui.py:209 | `os.path.relpath`: for a folder at or below the root it is the part below the root (`.` for the root itself); in general its length is that of both paths minus twice their common prefix |
| Discovery.CollectFiles | image_converter_gui.py:151-161 | the discovery loops: a non-directory root makes listing fail but yields an empty walk; otherwise the work list is `Discovered` of the entries |
| Discovery.Selected | image_converter_gui.py:152-161 | which entries are kept in each mode; a kept entry passes the filter and is not a directory |
| Discovery.Discovered | image_converter_gui.py:152-161 | the work list in listing order: at most one file per entry, each passing the filter |
| Discovery.DiscoveredIff | image_converter_gui.py:152-161 | a file is in the work list exactly when some kept entry names it |
| Discovery.DiscoveredShape | image_converter_gui.py:152-161 | every listed file lies under the root; without recursion it is a direct child of the root |
| Discovery.NonRecursiveIncluded | image_converter_gui.py:152-161 | everything the listing mode finds, the walk finds too |
| Discovery.RecursiveFindsNested | image_converter_gui.py:153-156 | the walk finds every qualifying non-directory name at any depth |
| Policy.Decide | image_converter_gui.py:200-260 | the destination and the outcome of one item, each outcome stated in both directions: a `makedirs` failure is an error; an existing destination is skipped exactly when overwrite is off, before the image is opened; an unidentified image and any other opening failure are errors of their own kinds; a same-format skip happens exactly when overwrite is off and the lowercased detected format equals the target; a failing save is an error; otherwise the image is converted with `Encode`; overwrite never skips |
| Policy.DestName | image_converter_gui.py:203-204 | the new base name; unless the stem is only dots, it splits back into the old stem and exactly the target extension |
| Policy.TargetDir | image_converter_gui.py:206-214 | the source's folder when no output folder is set; the output folder when not recursive; when recursive, the output folder plus the source folder's part below the input root |
| Policy.Destination | image_converter_gui.py:217 | the new path; with no output folder, a file that already has the target extension is its own destination |
| Policy.Encode | image_converter_gui.py:234-247 | JPEG exactly for the `jpg` target, saved in RGB at quality 100 without optimisation; PNG otherwise, in the source mode |
| Policy.TargetExtShape | image_converter_gui.py:204 | the target extensions `.jpg` and `.png` are lowercase and contain exactly one dot, at the start |
| Policy.TargetExtSupported | image_converter_gui.py:16 | both target extensions are on the allowlist |
| Policy.TargetNameSplits | image_converter_gui.py:203-204 | a stem that is not all dots, plus the target extension, splits back into exactly that stem and extension |
| Policy.DestNameSplits | image_converter_gui.py:203-204 | for a discovered name, the new name splits into the old stem and the target extension |
| Policy.DestNameQualifies | image_converter_gui.py:203-204 | a destination name passes the discovery filter, so a later run picks it up |
| Policy.DestNameIdempotent | image_converter_gui.py:203-204 | deriving the new name from a new name changes nothing |
| Policy.StemOfExamples | image_converter_gui.py:203 | `a.png` and `a.bmp` both have the stem `a` |
| Policy.SharedDestination | image_converter_gui.py:203-217 | two different sources in one folder, `a.png` and `a.bmp`, get the same destination |
| Policy.InPlaceSameExtension | image_converter_gui.py:203-223 | with no output folder, a file that already has the target extension exists as its own destination, so without overwrite it is skipped as existing, never as same-format |
| Policy.RerunSkipsConverted | image_converter_gui.py:219-223 | once an item was converted, a run without overwrite that finds its destination skips it as existing |
| Policy.JpegSourceNotSameFormat | image_converter_gui.py:227-228 | the detected name `jpeg` does not equal the target `jpg`, so a JPEG source is re-encoded, not skipped |
| Counters.Bump | image_converter_gui.py:219-260 | recording an outcome raises the sum of the outcome counters by one and leaves `total` and `processed` alone |
| Counters.JobCounters.constructor | image_converter_gui.py:32-37 | all five counters start at zero |
| Counters.JobCounters.Reset | image_converter_gui.py:134-139 | the start of a run sets all five counters to zero |
| Counters.JobCounters.SetTotal | image_converter_gui.py:168-169 | publishing the total changes only `total` |
| Counters.JobCounters.RecordOutcome | image_converter_gui.py:219-260 | a worker's locked increment raises exactly the named outcome counter |
| Counters.JobCounters.RecordCompletion | image_converter_gui.py:181-187 | one completed task raises `processed` by one, and the snapshot read in the same locked section is the new state |
| Schedule.CountSum | image_converter_gui.py:193 | the three outcome counts of a list of outcomes add up to its length |
| Schedule.DrainedOrderIndependent | image_converter_gui.py:175-193 | the final counters depend only on the multiset of outcomes, not on their order |
| Schedule.KindsAtPermutation | image_converter_gui.py:175-192 | two orders of the same tasks give the same multiset of outcomes |
| Schedule.AllTasksSeen | image_converter_gui.py:175-179 | after a full interleaving every task has completed once and recorded once |
| Schedule.ReplayShape | image_converter_gui.py:179-187 | after any run of locked sections, `processed` has grown by the number of completions and each outcome counter by the number of recorded tasks with that outcome |
| Schedule.ReplayPrefixStep | image_converter_gui.py:179-187 | the counters after one more locked section are one step from the counters before it |
| Schedule.ReplayConsistent | image_converter_gui.py:181-187 | at every point of every valid interleaving, `processed <= converted + skipped + errors <= total`, and `total` is the number of files |
| Schedule.ReplayDrains | image_converter_gui.py:175-193 | after a full interleaving, `processed == total` and each outcome counter holds the number of tasks with that outcome |
| Coordinator.CounterOf | image_converter_gui.py:219-260 | conversions bump `converted`, both kinds of skip bump `skipped`, and every failure bumps `errors`, each in both directions |
| Coordinator.ProcessSingleImage | image_converter_gui.py:196-260 | the worker's steps yield exactly the destination and outcome of `Decide` and raise exactly that outcome's counter |
| Coordinator.RunEvent | image_converter_gui.py:177-187 | one locked section of the interleaving: a worker's outcome, or a completion whose snapshot is the new state |
| Coordinator.RunPool | image_converter_gui.py:173-192 | the pool ends with the drained counters of the items' outcomes; the `j`-th progress snapshot has `processed == j + 1`, the full total, and is consistent |
| Coordinator.StartConversion | image_converter_gui.py:134-194 | the run crashes exactly when listing mode meets a root that is not a directory; it ends with "No supported images found." exactly when the work list is empty otherwise; it finishes exactly when files were found, and then the summary is the drained counters of the work list (`processed == total`), with one consistent progress snapshot per file carrying the full total; a run that does not finish leaves the counters at zero |

## Left out

- Widgets, dialogs, the folder pickers and the empty input-field warning are not modelled. Neither are the status text, the log lines or the progress bar fraction (a float).
- Threads and the executor are not modelled. The pool is an interleaving of locked sections given as input.
- Destination collisions within one run are not modelled. Two sources that differ only in extension share a destination (`Policy.SharedDestination`). Each worker's existence check can see what other workers of the same run have already saved, so the outcomes depend on the worker count and the timing. For example, `a.png` and `a.bmp` give one conversion and one skip with one worker, but can give two conversions with two. The model fixes each item's `ItemEnv` before the run.
- Image decoding, mode conversion and encoding are not modelled. The model keeps only the detected format name, the colour mode and the save arguments. Whether opening or saving raises is an input.
- Filesystem calls are inputs: `listdir`, `walk`, `isfile`, `makedirs`, `exists`. Symlinks and path normalisation are not modelled, and directories are normalised segment lists.
- A file that appears or disappears between the existence check and the save is not modelled, whether another worker or another process causes it.
- Reading the format option (`image_converter_gui.py:200`) sits outside the worker's `try`. If it raised, the task would complete with no outcome recorded. `Schedule.ValidSchedule` assumes every task records exactly one outcome.
- Policy.Decide: the format, overwrite, recursion and output-folder options are fixed for the whole run. The source reads them afresh in every worker (lines 200, 206-212, 219 and 228 of `image_converter_gui.py`). A run disables only the convert button and the worker count (lines 141-142), so the option widgets and the output folder's Browse button (lines 116-121) can change them during a run, and that could affect later items.
- Coordinator.ProcessSingleImage: logging is assumed not to raise. In the source, an exception from `_log` after an increment would be caught and counted again as an error.
- Paths.Lower: only ASCII letters are lowercased; Python's full Unicode case mapping is not modelled.
