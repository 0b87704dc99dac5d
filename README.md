# lfa-file-size-checker, modelled in Dafny

The file size checker is a step of the lfa asset build. For every file in
the asset stream it looks up the policies whose pattern matches the file's
path, in the order of the policy table. It then warns:

- when the file reaches a policy's byte limit;
- for an image policy, when the image cannot be opened;
- for an image policy, when the image's width or height lies outside the
  policy's bounds.

The table is either the one configured for the package or a built-in default
with four rows: jpeg/png images, svg, video and audio. Nothing is checked in
debug builds. Entries that are not regular files are passed through
unchecked.

The model has six modules:

- `PolicyTable` (`policy_table.dfy`) has the policy and pattern datatypes and
  the default table. It also chooses the table in force.
- `Checks` (`checks.dfy`) has the file, probe answer and warning datatypes.
  It holds the checks one policy applies: the size check and the decisions
  of the image probe's callback.
- `Seqs` (`seqs.dfy`) has generic facts about concatenating a sequence of
  sequences.
- `Validator` (`validator.dfy`) is the specification of one file's
  warnings. It is the warnings of every matching row, in table order. It
  also describes the two phases in which the checker really emits them, and
  proves that they agree with the specification.
- `Tap` (`tap.dfy`) is the imperative part:
  - a `Console` whose log is the output of `warn`;
  - the tap callback (`CheckFile`), which walks the table with a loop;
  - the probe callback (`Deliver`).
- `Defaults` (`defaults.dfy`) has what the built-in table implies for
  images, svg, video and audio files.

The image probe is asynchronous. While the table is walked, the tap callback
logs only the size warnings, in table order, and starts one probe per
matching image policy. Each probe's callback logs its own warnings later, in
whatever order the probes answer. So the model has these parts:

- `CheckFile` logs `Sizes(...)` and returns the rows whose probes it started
  (`Requests(...)`).
- `Deliver` is one probe callback.
- `Validator.AnyCompletionOrder` shows that the size phase plus the
  callbacks, run in any order, log the same warnings as the table-order
  specification `Warnings`. The order may differ; the multiset of warnings
  is the same.

Bounds are `Option<nat>`. A bound is checked only when it is present and
non-zero (`Limited`), as in the source's truthiness guards. A size equal to
the limit warns. Dimensions equal to a bound do not.

The default video and audio patterns have no `$`, so they are not anchored
at the end of the path. Their extensions match anywhere in it: `clip.mp4.bak`
is size-checked as a video (`MediaExtensionsMatchAnywhere`). The image and
svg patterns must end the path.

## Model

| member | source | states |
|---|---|---|
| PolicyTable.Matches | index.js:40 | a pattern matches a path only when one of its alternatives fits within the path |
| PolicyTable.MatchSurvivesExtension | index.js:40 | the test searches the whole path: a match survives any prefix put in front of the path, and a pattern without `$` also survives anything appended |
| PolicyTable.ActiveTable | index.js:37 | a configured table is used as it is; without one the built-in table applies |
| PolicyTable.OtherExtensionsAreNotImages | index.js:7-17 | a path ending in an svg, video or audio extension of the defaults is not matched by the image row |
| PolicyTable.MediaPatternsNeedDot | index.js:16-17 | the video and audio rows match only paths where a dot is followed by `m`, `o` or `a` |
| PolicyTable.MediaExtensionsMatchAnywhere | index.js:16-17 | the unanchored video and audio patterns match their extension wherever it occurs in the path |
| Checks.SizeCheck | index.js:44-46 | a size warning is given iff maxSize is set, non-zero and reached, and it is then the single warning SizeTooBig(path, size, maxSize) |
| Checks.ProbeCheck | index.js:49-61 | a failed probe gives exactly one CannotOpen with the error message; a measured one gives only the two exact dimension warnings for its width, height and bounds, each at most once: too big iff a set max bound is strictly exceeded, too small iff a set min bound is strictly undershot, too small last |
| Checks.PolicyWarnings | index.js:44-62 | one matching policy yields at most three warnings for the file; the size warning is present iff maxSize is set, non-zero and reached, and it comes first; without `image` only the size warning is possible; with a failed probe the last warning is CannotOpen, after nothing but the size warning; with a measured image there is no CannotOpen |
| Checks.MeasuredImageWarnings | index.js:53-60 | for a measured image under an image policy, the policy's warnings hold the exact too-big warning iff a set max bound is exceeded, the exact too-small warning iff a set min bound is undershot, and nothing else besides the size warning |
| Checks.NoRepeatedWarning | index.js:44-61 | one policy never reports the same warning twice for a file |
| Validator.Warnings | index.js:39-64 | the table-order warnings of a file: at most three per row of the table |
| Validator.FileWarnings | index.js:27-64 | the warnings of one stream entry: none in debug mode or for a non-regular entry, and at most three per row of the table in force |
| Validator.Requests | index.js:48-49 | the probes started among the first n rows: at most n, each for one of those rows |
| Validator.Sizes | index.js:39-46 | the warnings logged while walking the first n rows are at most n, and all are size warnings for this file and its size |
| Validator.RequestsAreProbedRows | index.js:39-49 | a probe is started exactly for the matching image rows, once each, in table order |
| Validator.WarningsFromMatchingRows | index.js:39-42 | every warning names the file and comes from a row whose pattern matches its path |
| Validator.WarningsAppend | index.js:39-64 | the rows are applied independently, in table order: the warnings of a concatenated table are the concatenation of the parts' warnings |
| Validator.NonMatchingRowIgnored | index.js:40-42 | inserting a row whose pattern does not match, anywhere in the table, changes no warning |
| Validator.ImagelessRowsOnlySize | index.js:48-62 | when no matching row is an image policy, every warning is a size warning |
| Validator.RowSplits | index.js:44-62 | a row's warnings are what it logs at once followed by what its probe's callback logs |
| Validator.PhasesCoverRows | index.js:39-64 | after n rows, the size phase together with the callbacks of the probes started so far hold, up to order, the table-order warnings of those n rows |
| Validator.CallbacksGrow | index.js:48-62 | starting the probe of one more row adds exactly that row's callback warnings to the second phase |
| Validator.AnyCompletionOrder | index.js:39-64 | in whatever order the probes answer, the size phase plus all callbacks log the table-order warnings of the file, up to order |
| Validator.ConfiguredTableReplacesDefaults | index.js:37 | with a configured table the warnings are that table's, never merged with the defaults; an empty configured table gives no warning |
| Validator.SilentWhenSkipped | index.js:27-35 | in debug mode, and for an entry that is not a regular file, there are no warnings |
| Tap.Console.Warn | index.js:20-23 | a warning is appended to the log and nothing else changes |
| Tap.CheckFile | index.js:27-66 | debug mode or a non-regular entry logs nothing and starts no probe; otherwise the log grows by the size warnings of the table in force, in table order, and the probes started are exactly those of the matching image rows |
| Tap.CheckRow | index.js:40-48 | one row logs its size warning when it matches and reports whether it starts a probe |
| Tap.Deliver | index.js:49-61 | a probe callback appends exactly the warnings the probe's answer calls for |
| Defaults.DefaultBounds | index.js:6-18 | the built-in table has four rows, each with a byte limit, and only the first is an image policy; a measured image gets no dimension warning from it iff it is from 640x480 up to 2048x1536 inclusive |
| Defaults.DefaultProbes | index.js:6-18 | with the defaults only the image row is probed, and only when the path ends in `.jpg`, `.jpeg` or `.png` |
| Defaults.NonImagesOnlySizeChecked | index.js:6-18 | with the defaults a path the image row does not match starts no probe and gets only size warnings |
| Defaults.OtherTypesOnlySizeChecked | index.js:15-17 | with the defaults an svg, video or audio file starts no probe and gets at most size warnings |
| Defaults.PhotoPngMatchesImageRowOnly | index.js:7-17 | of the default rows, only the image row matches `photo.png` |
| Defaults.SmallHeavyPng | index.js:7-60 | a 2,000,000-byte 500x400 png gets a size warning (limit 1,000,000) and then a too-small warning (640x480), nothing else |

## Left out

- The gulp stream and the task registration (`gulp-tap`, `lfa.task`) are
  host-pipeline plumbing and are not modelled. The entry the tap callback
  returns is the one it received. `File` is a value here, so `CheckFile`
  cannot change it.
- The `gm` image probe is an external process. Its answer is an input: one
  `Probe` per table row (`probes[k]`), read only for matching image rows.
  Probing the same file twice for two image rows is assumed to give
  independent answers.
- `file.history[0]`, which is probed, and `file.path`, which is matched and
  printed, are both taken to be the file's `path`. `warn` reads
  `file.path` when it runs. For the probe callbacks, that is after the tap
  callback has passed the entry downstream. So a later stage that renames
  the entry in place changes the path the image warnings print. The model's
  `CannotOpen` and dimension warnings carry the path as it was when the
  file was checked.
- `console.log` and `chalk` colouring are left out. A warning is a datatype
  value carrying the numbers the message prints, not the formatted text.
- Interleaving across files is not modelled. The model covers one file. The
  answers of probes for different files may arrive interleaved in the log.
- General JavaScript regular expressions are not modelled. A pattern is
  either a literal alternation that must end the path or one that may occur
  anywhere in it. Those are the two shapes of the default table. Matching is
  case-sensitive, as in the source.
- A configured table is an ordered list of rows, which may repeat a pattern.
  The source's configuration is an object keyed by pattern, walked in key
  insertion order. The source therefore cannot hold a repeated pattern, and
  it would enumerate integer-like keys first.
- Configured bounds are natural numbers. Negative, fractional or non-numeric
  option values in a configuration are not modelled.
