# node-clouddrive: the `exists` and `upload` commands

node-clouddrive is a command-line client for a cloud file store. This project models, in
Dafny, the decision logic of two of its commands.

- **`exists <sources…> <remote folder>`** compares local files with the store. Every source
  argument gets a remote root. The source's directory tree is walked depth first in listing
  order. The backend is asked about every file, and one log line classifies each file as
  missing, identical, mismatched or stored elsewhere. A backend miss is only logged. A failed
  directory listing or stat ends the whole run with that error.
- **`upload <sources…> <remote path>`** sends local files and directories. After the
  initialization, authorization and argument checks, the sources are dispatched one at a
  time. Each source takes the directory or the file upload, depending on its `lstat`. The
  backend drives three hooks:
  - `onFileUpload` sets up a progress bar;
  - `onFileProgress` keeps byte and time counters and decides when to redraw;
  - `onFileComplete` tears the bar down and classifies the outcome into a log line.

  The first missing source or backend error ends the run.

Modules:

- `JsValues` (js_values.dfy) covers the JavaScript values the commands test:
  - truthiness and `=== true`;
  - template-literal text and `Array.prototype.join`;
  - leveled log lines (`Command.log`, `info`, `warn`, `error`).
- `JsString` (js_string.dfy) covers `String.prototype.replace` with a string pattern. It
  replaces the first occurrence and expands `$$`, `$&`, `` $` `` and `$'`.
- `ExistsCommand` (exists_command.dfy) holds:
  - the directory tree;
  - the walk, both as a recursive function and as the method that runs it;
  - a pre-order reference definition and the classification;
  - the accumulating remote roots and `run`.
- `UploadHooks` (upload_hooks.dfy) holds the outcome classifier and the counters as pure
  steps. The `Hooks` class keeps the hooks' closed-over variables as fields, and its
  methods update them in place.
- `UploadCommand` (upload_command.dfy) holds:
  - the options object;
  - hook events replayed on a `Hooks` object;
  - the dispatch, as a specification function and as the loop in `Run`.

In `exists`, the remote path of each file comes from a first-occurrence `replace`. That replace
also expands `$` patterns in the remote root; `ReplaceExpandsMatch` shows one. Subdirectories are
walked when they are met, before later siblings.

The file system, the backend (`Node.exists`, `Node.uploadFile`, `Node.uploadDirectory`),
`path.resolve`, `Utils.getPathArray`, `JSON.stringify` and the clock are parameters of the
model. The backend is an oracle. For `exists` it returns a reply per file. For `upload` it
returns, per call, the hook invocations it makes and its callback's error.

## Model

| member | source | states |
|---|---|---|
| `ExistsCommand.Classify` | lib/Commands/ExistsCommand.js:55-67 | The verdict on a backend reply, as four if-and-only-if conditions: missing iff not success; identical iff path and checksum match; mismatch iff only the path matches; relocated (with the reply's nodes) iff the path does not match. |
| `ExistsCommand.ReportLine` | lib/Commands/ExistsCommand.js:55-67 | The level is error iff missing, info iff identical, and warn iff mismatch or relocated. The message starts with "File <remote path> ". A relocated warning ends with the nodes joined by ", ". |
| `ExistsCommand.ReportLineDistinguishes` | lib/Commands/ExistsCommand.js:55-67 | Two equal lines for the same file report the same kind of verdict, so the line determines the classification. |
| `ExistsCommand.CompareFile` | lib/Commands/ExistsCommand.js:53-54 | A file's report carries its local path, the remote path obtained by replacing the local root with the remote root, and the classification of the backend's reply to (remote path, local path). |
| `ExistsCommand.RemoteFile` | lib/Commands/ExistsCommand.js:53 | For a path that starts with the local root, and a remote root without `$`, the remote path is the remote root followed by the rest of the path. |
| `ExistsCommand.RemotePathMirrors` | lib/Commands/ExistsCommand.js:43-53 | For a path that starts with the local root, the first-occurrence replace is a prefix replace. When the remote root holds no `$`, the remote path is the remote root followed by the rest of the path. |
| `ExistsCommand.WalkEntries` | lib/Commands/ExistsCommand.js:42-74 | No contract of its own, to keep the walk's proofs small. `WalkIsPreOrder` states its order and failures, and `WalkCompares` its reports. |
| `ExistsCommand.WalkCompares` | lib/Commands/ExistsCommand.js:49-54 | Every report of a directory's walk is the classification of the backend's reply for that file, and has the remote path derived from the walk's roots. |
| `ExistsCommand.WalkRoot` | lib/Commands/ExistsCommand.js:32-40 | The same for a source's root listing: every report is classified from the backend's reply and carries its derived remote path. |
| `ExistsCommand.WalkIsPreOrder` | lib/Commands/ExistsCommand.js:42-51 | A directory's walk equals the pre-order reference definition `Flatten`. It reports, in pre-order and listing order, every non-directory entry up to the first failed stat or listing, and ends with that error. Directories make no report of their own. |
| `ExistsCommand.WalkRootIsPreOrder` | lib/Commands/ExistsCommand.js:32-78 | The same for a source's root: a failed listing of the root is the walk's error. |
| `ExistsCommand.BackendMissNonFatal` | lib/Commands/ExistsCommand.js:54-70 | The backend's answers never change which files are compared, in which order, with which remote paths, or how the walk ends. A miss is logged and the walk goes on. |
| `ExistsCommand.EmptyDirectory` | lib/Commands/ExistsCommand.js:38-40 | An empty root directory completes without error and without a report. |
| `ExistsCommand.FlattenBelow` | lib/Commands/ExistsCommand.js:43 | Every file met below a directory has a path that starts with that directory and "/". |
| `ExistsCommand.RootReportsMirror` | lib/Commands/ExistsCommand.js:43-53 | Every report of a source's walk is for a file below the local root. Its remote path is the remote root followed by the file's path below the local root, when the remote root holds no `$`. |
| `ExistsCommand.UpToFailure` | lib/Commands/ExistsCommand.js:72-74 | The files are all files. With no failure they are the whole sequence. With a failure they are the sequence before the first failing visit, and the failure is that visit's error. |
| `ExistsCommand.WalkDirectory` | lib/Commands/ExistsCommand.js:32-76 | The forEachSeries over the entries, which descends into each subdirectory as it is met, computes exactly the recursive walk `WalkEntries`. |
| `ExistsCommand.WalkSource` | lib/Commands/ExistsCommand.js:78 | Walking a source's root computes `WalkRoot`. |
| `ExistsCommand.LinesMatchReports` | lib/Commands/ExistsCommand.js:55-67 | Exactly one log line per report, at the level of its verdict. |
| `ExistsCommand.RemoteRoots` | lib/Commands/ExistsCommand.js:28-30 | One root per source. The first root is the destination's segments plus the first source's base name, joined with "/". |
| `ExistsCommand.NextRoot` | lib/Commands/ExistsCommand.js:28-30 | With a splitter that inverts join, the next root splits into the previous root's segments followed by the source's base name. |
| `ExistsCommand.RemoteRootsStep` | lib/Commands/ExistsCommand.js:28-30 | Each later root is derived from the previous root, not from the destination. |
| `ExistsCommand.BaseNames` | lib/Commands/ExistsCommand.js:29 | Pointwise, the last segment of each path, or "" when there is none. |
| `ExistsCommand.RootsAccumulate` | lib/Commands/ExistsCommand.js:28-30 | Roots accumulate across arguments. Take a splitter that inverts join, and segments free of "/". Then the root of source j is the destination's segments followed by the base names of sources 0 to j. |
| `ExistsCommand.LastSlash` | lib/Commands/ExistsCommand.js:28-29 | The position of the last "/" in a path, and no "/" after it, or none when the path has no "/". |
| `ExistsCommand.SplitPath` | lib/Commands/ExistsCommand.js:28-29 | A reference splitter on "/" that drops empty pieces. Every piece is a segment. |
| `ExistsCommand.LastSlashIs` | lib/Commands/ExistsCommand.js:30 | In a join whose last part has no "/", the last "/" is the separator before that part. |
| `ExistsCommand.SplitPathJoin` | lib/Commands/ExistsCommand.js:28-30 | Splitting the "/"-join of segments gives the segments back. |
| `ExistsCommand.SplitPathSplitsJoins` | lib/Commands/ExistsCommand.js:28-30 | The reference splitter meets the hypothesis of `RootsAccumulate`. |
| `ExistsCommand.RootsAccumulateSplitPath` | lib/Commands/ExistsCommand.js:28-30 | Under the reference splitter, for sources with a base name, the root of source j is the destination's segments followed by the base names of sources 0 to j. |
| `ExistsCommand.Sources` | lib/Commands/ExistsCommand.js:25-85 | Every report of the sources' walks is the classification of the backend's reply for that file. |
| `ExistsCommand.SourcesArePreOrder` | lib/Commands/ExistsCommand.js:25-85 | The sources are walked one after another. The reports are those of every file met, source by source, up to the first local error. No later source is walked after it. |
| `ExistsCommand.ResolveAll` | lib/Commands/ExistsCommand.js:26 | Each source is resolved, pointwise. |
| `ExistsCommand.Run` | lib/Commands/ExistsCommand.js:14-85 | Checks run in order: an initialization error rejects, then an empty source list rejects with "Destination path must be specified". Otherwise the reports and the verdict are those of `Sources` over the resolved sources and the accumulated roots. Every report is the classification of the backend's reply, and the log has one classified line per report. |
| `JsString.IndexFrom` | lib/Commands/ExistsCommand.js:53 | The first occurrence of the pattern at or after a position, or none. |
| `JsString.IndexOf` | lib/Commands/ExistsCommand.js:53 | The first occurrence of the pattern, or none. |
| `JsString.Substitution` | lib/Commands/ExistsCommand.js:53 | A replacement without `$` is inserted literally. |
| `JsString.Replace` | lib/Commands/ExistsCommand.js:53 | A string that does not contain the pattern is returned unchanged. `ReplacePrefix` and `ReplacePrefixLiteral` state the case where it starts with the pattern. |
| `JsString.ReplacePrefix` | lib/Commands/ExistsCommand.js:53 | Replacing a pattern in a string that starts with it substitutes that prefix. |
| `JsString.ReplacePrefixLiteral` | lib/Commands/ExistsCommand.js:53 | The same with a literal replacement: the result is the replacement followed by the rest. |
| `JsString.ReplaceExpandsMatch` | lib/Commands/ExistsCommand.js:53 | A remote root containing `$&` reinserts the local root, so the remote path is not the remote root plus the suffix. |
| `JsValues.NatToString` | lib/Commands/UploadCommand.js:89 | Numbers in messages are rendered as a non-empty string of decimal digits, without a leading zero unless the number is 0. |
| `JsValues.NatToStringValue` | lib/Commands/UploadCommand.js:89 | The digits denote the number rendered. |
| `JsValues.Join` | lib/Commands/ExistsCommand.js:30 | Joining a single part gives that part. With two or more parts, the first part is followed by the separator. `SplitPathJoin` shows that a "/"-join is undone by splitting on "/". |
| `JsValues.Leveled` | lib/Commands/UploadCommand.js:89 | The info, warn and error lines of a log, without the verbose `Command.log` lines. |
| `JsValues.LeveledAppend` | lib/Commands/UploadCommand.js:89-99 | Filtering distributes over appending logs. |
| `UploadHooks.FailureLevel` | lib/Commands/UploadCommand.js:109-121 | A failure is a warning or an error. With `exists === true`, it is a warning iff `md5Match === true` and `pathMatch === true`. Otherwise it is a warning iff `retry === true`. |
| `UploadHooks.FailureMessage` | lib/Commands/UploadCommand.js:101-107 | The text is "Failed to upload file '<local path>': " followed by the backend's message when that is truthy, and by the serialized data otherwise. |
| `UploadHooks.OutcomeLine` | lib/Commands/UploadCommand.js:98-122 | Info iff `success` is truthy. Otherwise the line carries the failure level and the failure message. |
| `UploadHooks.StatusLine` | lib/Commands/UploadCommand.js:89 | A verbose line: the status prefix followed by the response's status. |
| `UploadHooks.InvalidBodyLine` | lib/Commands/UploadCommand.js:92 | An error line: the file's local path inside the fixed text, then the status code, ": " and the body. |
| `UploadHooks.CompleteLines` | lib/Commands/UploadCommand.js:86-122 | With a response, two lines, the first being the status line. Without one, a single line. The last line is the invalid-body error when a response came with an empty body, and the outcome's line otherwise. |
| `UploadHooks.CompleteReportsOnce` | lib/Commands/UploadCommand.js:88-124 | A completion produces exactly one info, warn or error line. With a response and an empty body it is the invalid-body error, and the outcome is not classified. Otherwise it is the outcome's line. |
| `UploadHooks.FileUploadStep` | lib/Commands/UploadCommand.js:41-58 | With progress bars on, a bar exists for the file's size, the byte count is 0 and the clock is recorded. Otherwise nothing changes. `bytesDispatched` is never reset here. |
| `UploadHooks.ProgressStep` | lib/Commands/UploadCommand.js:59-76 | Without a bar nothing changes. With a bar, `bytesUploaded` grows by the previous `bytesDispatched` plus the chunk length. A redraw happens iff the elapsed time reaches the interval or the count reaches the file size. A redraw sets `lastRun` to the second clock reading and zeroes `bytesDispatched`. Otherwise `lastRun` stays and `bytesDispatched` grows by the chunk length. |
| `UploadHooks.CompleteStep` | lib/Commands/UploadCommand.js:80-84 | The bar and the file size are cleared iff a bar exists and is not complete. The other counters never change. |
| `UploadHooks.ProgressRun` | lib/Commands/UploadCommand.js:59-76 | A run of progress calls keeps the bar and its file size and gives one redraw flag per chunk. |
| `UploadHooks.ProgressCountsAtLeastBytesSent` | lib/Commands/UploadCommand.js:61-62 | Over a run of chunks, `bytesUploaded` grows by at least the bytes sent, plus what was pending from the first chunk on. |
| `UploadHooks.ProgressExactWhenRedrawn` | lib/Commands/UploadCommand.js:61-69 | When every chunk but the last is redrawn, the count is exact. |
| `UploadHooks.ProgressOverCounts` | lib/Commands/UploadCommand.js:61-62 | Two 10-byte chunks within one interval give a count of 30. |
| `UploadHooks.Hooks.constructor` | lib/Commands/UploadCommand.js:30-34 | The counters start as null, null, null, 0, null, with an empty log. |
| `UploadHooks.Hooks.OnFileUpload` | lib/Commands/UploadCommand.js:41-58 | The fields become `FileUploadStep` of the old fields, and the log is unchanged. |
| `UploadHooks.Hooks.OnFileProgress` | lib/Commands/UploadCommand.js:59-77 | The fields and the redraw flag are `ProgressStep` of the old fields, and the log is unchanged. |
| `UploadHooks.Hooks.OnFileComplete` | lib/Commands/UploadCommand.js:78-125 | The fields become `CompleteStep` of the old fields. The log gains exactly the completion's lines. Every path returns, that is, calls the continuation once. |
| `UploadCommand.BuildOptions` | lib/Commands/UploadCommand.js:35-40 | `force` is true iff the option is truthy, and `retryAttempt` is 0. The configuration values pass through. The `overwrite` key is present, and true, iff the option is truthy (lines 128-130). |
| `UploadCommand.ApplyEvent` | lib/Commands/UploadCommand.js:41-125 | A hook invocation keeps the counters consistent: a bar always comes with a size, a count and a time. |
| `UploadCommand.Replay` | lib/Commands/UploadCommand.js:41-125 | The same for a sequence of hook invocations. |
| `UploadCommand.ReplayAppend` | lib/Commands/UploadCommand.js:41-125 | Replaying two event sequences in turn is replaying their concatenation. |
| `UploadCommand.ReplayReportsEachCompletion` | lib/Commands/UploadCommand.js:78-125 | The hooks only append to the log, with exactly one info, warn or error line per completion and none for other events. |
| `UploadCommand.ApplyEventLog` | lib/Commands/UploadCommand.js:41-125 | One hook invocation only appends to the log: one classified line for a completion, none for the other hooks. |
| `UploadCommand.CallFor` | lib/Commands/UploadCommand.js:139-149 | A source goes to `uploadDirectory` iff its lstat is a directory, with its own path and the destination. |
| `UploadCommand.After` | lib/Commands/UploadCommand.js:140-155 | The hooks' state once the backend has run a call keeps the counters consistent. |
| `UploadCommand.Dispatch` | lib/Commands/UploadCommand.js:132-162 | The dispatch keeps the hooks' counters consistent. |
| `UploadCommand.DispatchInOrder` | lib/Commands/UploadCommand.js:132-161 | Sources are processed in input order, each checked only when its turn comes. Each uploaded source takes the upload its lstat calls for. Every call but the last succeeded. The run succeeds iff every source was uploaded without error. Otherwise the error is either "No file exists at '<path>'" for the next source, or the last call's error. |
| `UploadCommand.DispatchCalls` | lib/Commands/UploadCommand.js:132-149 | The calls made are for a prefix of the sources, in order, each existing and taking the upload its lstat calls for. |
| `UploadCommand.DispatchEarlierSucceeded` | lib/Commands/UploadCommand.js:140-155 | Every call but the last succeeded. |
| `UploadCommand.DispatchSucceeds` | lib/Commands/UploadCommand.js:156-161 | The dispatch succeeds iff every source was uploaded and the last call succeeded. |
| `UploadCommand.DispatchStops` | lib/Commands/UploadCommand.js:133-155 | A failed dispatch stops either at the first missing source, after every call succeeded, with "No file exists at '<path>'", or with the last call's error. |
| `UploadCommand.DispatchMissing` | lib/Commands/UploadCommand.js:133-137 | A source that does not exist ends the dispatch with its "No file exists" error, and no call is made. |
| `UploadCommand.DispatchUploaded` | lib/Commands/UploadCommand.js:139-155 | An existing source is uploaded with its call. The dispatch goes on with the next source unless that call failed. |
| `UploadCommand.DispatchLogsCompletions` | lib/Commands/UploadCommand.js:132-161 | The hooks' state after the dispatch is the replay of the calls' events, in call order. The log holds one classified line per completion. |
| `UploadCommand.ReplayOn` | lib/Commands/UploadCommand.js:41-125 | Running a call's hook invocations on the `Hooks` object leaves its fields and log equal to `Replay` of the old ones. |
| `UploadCommand.DispatchAll` | lib/Commands/UploadCommand.js:132-162 | The loop over the sources on the `Hooks` object makes the calls of `Dispatch`, ends with its failure, and leaves the hooks' fields and log equal to its final state. |
| `UploadCommand.Run` | lib/Commands/UploadCommand.js:15-162 | Rejections come before any upload and in this order: an initialization error, then "Account not authorized…", then "Destination path must be specified". Otherwise the calls, the log and the verdict are those of `Dispatch` over the sources and the last argument, with the built options and fresh hooks. |

## Left out

- The file system (`fs.readdir`, `fs.stat`, `fs.statSync`, `fs.lstatSync`) is an oracle:
  - an ordered tree with failure entries for `exists`;
  - maps from path to stat result and to size for `upload`.
- A failure of `fs.statSync` inside `onFileUpload` is not modelled. The size is a `nat`.
- `path.resolve` and `Utils.getPathArray` are function parameters. `Utils` is not part of this
  model, so the accumulation lemma assumes a splitter that inverts join on "/"-free segments.
  `SplitPath`, a splitter on "/" that drops empty pieces, meets that assumption
  (`SplitPathSplitsJoins`).
- `Node.exists`, `Node.uploadFile` and `Node.uploadDirectory` are oracles:
  - they cover network, retries, ignore-file filtering and dedupe;
  - the error argument of the `Node.exists` callback is ignored, as in the source;
  - the backend's own changes to `opts.retryAttempt` are not modelled.
- `this.initialize`, authorization and `this.config.get` are inputs.
- Terminal output is out of the model: `ProgressBar` (`tick`, `lastDraw`; its `complete` flag is
  an input of `OnFileComplete`), `logUpdate`, `chalk`, and `Command.*` beyond recording the
  level and the message.
- The throughput string (UploadCommand.js line 71) is out of the model. It uses floating-point
  division, `Math.round` and `Utils.convertFileSize`.
- `JSON.stringify` is an opaque parameter. `Date.now` is an integer input, read twice by
  `onFileProgress`.
- Numbers are integers. `null + n` never arises, because a bar always comes with its counters.
- `ExistsCommand.Classify`: reply fields are booleans, not arbitrary JavaScript values, and
  `nodes` is a list of strings.
- Promises and `async.forEachSeries` are sequential loops with early exit. Concurrency is out of
  the model.
- `UploadHooks.ProgressCountsAtLeastBytesSent` states a lower bound. The source's count is not
  the bytes sent (line 62 adds the bytes since the last redraw). `ProgressOverCounts` shows the
  gap.
- `UploadHooks.OutcomeLine`: `retval.data` is always present. When `success` is falsy and the
  backend gives no `data`, line 103 throws a TypeError; that case is not modelled.
