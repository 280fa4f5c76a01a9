# google-photo-uploader: the per-item decisions, in Dafny

The uploader watches one directory. For each newly created file whose
extension is on an allow-list, it queues the path. A pool of workers pops
paths and runs `rclone copy <path> <remote>:<album> [--checksum]` with a
bounded retry loop. After a successful upload it can optionally delete the
local file.

This project models the deterministic decisions inside that pipeline. The
operating system and `rclone` are inputs:

- **PathExt** (`pathext.dfy`): Go's `filepath.Ext` with `/` as the only separator, as on Unix. It is
  the backwards scan of the source. A reference definition
  (`IsExtensionOf`) says what the extension is, and the scan is proved to
  compute exactly that.
- **Fold** (`fold.dfy`): `strings.EqualFold` restricted to ASCII. It is the
  character loop of Go's fast path. It is proved equivalent to "both strings
  lower-case to the same string" and to be an equivalence relation.
- **Filter** (`filter.dfy`): `isSupportedFile`. It is written as the source's
  early-exit loop and proved equal to "some allow-list entry fold-equals the
  extension". It is also proved insensitive to letter case.
- **Upload** (`upload.dfy`): `uploadFile`. It covers the existence check, the
  argument vector and the retry loop. The tool's exit status for attempt `i`
  is the input `toolOk(i)`. What `os.Stat` saw is the input `stat`. The result
  is a trace of `Invoke(args)` and `Sleep` steps plus `Ok` or an error, so
  invocations and sleeps can be counted exactly.
- **Worker** (`worker.dfy`): the per-item branch of `uploadWorker`. Removal is
  attempted only after a successful upload with `delete_after_upload`. Its
  outcome does not affect the item's status. A drained queue is handled item by
  item, once each, in pop order.
- **Watcher** (`watcher.dfy`): the `Create` bitmask test of `watchFiles` and the
  filter of `handleFileCreated`, over a sequence of watcher inputs.
- **Config** (`config.dfy`) and **Options** (`options.dfy`): the settings
  record and an optional-value type.

Two behaviours of the code are stated as lemmas because they are easy to miss:

- Only `os.IsNotExist` stops an upload. Any other stat failure proceeds
  (`Upload.StatErrorProceeds`).
- With `retry_count <= 0` the loop body never runs and `uploadFile` returns
  success. With `delete_after_upload` on, the worker then removes a file the
  tool was never asked to copy (`Worker.RemovedWithoutInvocation`).

## Model

| member | source | states |
|---|---|---|
| PathExt.ExtFrom | google-photo-uploader/main.go:215 | The backwards scan, resumed at any index after which only non-dot, non-separator characters were seen, returns the extension in the reference sense |
| PathExt.Ext | google-photo-uploader/main.go:215 | `filepath.Ext(path)` is the reference extension: empty when the final element has no dot, otherwise the suffix from the last dot of the final element |
| PathExt.ExtensionUnique | google-photo-uploader/main.go:215 | A path has at most one extension under the reference definition |
| PathExt.ExtCharacterized | google-photo-uploader/main.go:215 | `Ext(path) == e` holds exactly when `e` is the reference extension of `path` (both directions) |
| PathExt.ExtShape | google-photo-uploader/main.go:215 | The extension is a suffix of the path; if non-empty it starts with its only dot and holds no separator |
| PathExt.ExtOfSuffix | google-photo-uploader/main.go:215 | Appending `.` plus dot-free, separator-free characters to any stem makes that suffix the extension |
| PathExt.ExtOfDotless | google-photo-uploader/main.go:215 | A final element without a dot gives the empty extension |
| Fold.CharsEqualFoldIffSameLower | google-photo-uploader/main.go:217 | The per-character test (equal, or upper/lower ASCII pair) agrees with comparing ASCII-lower-cased characters |
| Fold.EqualFoldIffSameLower | google-photo-uploader/main.go:217 | `EqualFold(s, t)` holds exactly when `s` and `t` lower-case to the same string, lengths included |
| Fold.EqualFoldEquivalence | google-photo-uploader/main.go:217 | Case-insensitive equality is reflexive, symmetric and transitive |
| Filter.SupportedIffMatchesAllowList | google-photo-uploader/main.go:214-222 | The filter's verdict (Go's `Ext` scan plus the fold loop) agrees in both directions with the reference: the path has an extension, in the reference sense, that ASCII-lower-cases to some allow-list entry |
| Filter.IsSupportedFile | google-photo-uploader/main.go:214-222 | The early-exit loop returns true exactly when some configured extension case-insensitively equals the path's extension |
| Filter.NothingSupportedWithoutExtensions | google-photo-uploader/main.go:216-221 | With an empty allow-list no path is supported |
| Filter.ExtFromRespectsFold | google-photo-uploader/main.go:215-217 | Scans over two paths equal up to ASCII case stop at the same index and give case-equal suffixes |
| Filter.ExtRespectsFold | google-photo-uploader/main.go:215-217 | Paths equal up to letter case have extensions equal up to letter case |
| Filter.SupportedRespectsFold | google-photo-uploader/main.go:214-222 | Changing only the letter case of a path never changes whether it is supported |
| Filter.SupportedIgnoresExtensionCase | google-photo-uploader/main.go:216-221 | Re-casing the extension of a path does not change the verdict |
| Filter.ExtensionlessSupportedIffEmptyEntry | google-photo-uploader/main.go:214-222 | A file whose final element has no dot is supported exactly when `""` is on the allow-list |
| Filter.UpperCaseHeicAccepted | google-photo-uploader/main.go:214-222 | `/photos/IMG_0001.HEIC` passes an allow-list holding `.heic` |
| Upload.CopyArgs | google-photo-uploader/main.go:268-274 | The vector is `copy`, the path, `remote:album`, then `--checksum` exactly when duplicate checking is on (length 4 against 3) |
| Upload.SplitRemoteRoundTrip | google-photo-uploader/main.go:268 | Splitting `remote:album` at its first colon recovers remote and album when the remote name has no colon |
| Upload.CopyArgsRoundTrip | google-photo-uploader/main.go:268-274 | Parsing the argument vector back recovers the source path, remote, album and checksum flag |
| Upload.RemotePathAmbiguous | google-photo-uploader/main.go:268 | A colon in the remote name makes two different configurations produce the same vector |
| Upload.ScheduleCounts | google-photo-uploader/main.go:277-290 | A schedule of `n` invocations holds `n` invocations of the same vector and `n - 1` sleeps, and ends with an invocation |
| Upload.RetryLoop | google-photo-uploader/main.go:277-296 | From iteration `i`: the trace is invocations separated by sleeps, at most the remaining budget. Every invocation but the last failed. The result is success exactly when the last invocation succeeded or there was none. Failure means the budget was used up |
| Upload.UploadFile | google-photo-uploader/main.go:261-297 | A missing file gives an error and an empty trace. A limit of zero or less gives success and an empty trace. Every invocation uses the configured vector |
| Upload.AlwaysFailingTool | google-photo-uploader/main.go:277-290 | With limit `K >= 1` and `K` failures: exactly `K` invocations and `K - 1` sleeps, no sleep after the last, and the exhausted-retries error |
| Upload.FirstSuccessAt | google-photo-uploader/main.go:282-293 | If attempt `j <= K` is the first success: exactly `j` invocations, `j - 1` sleeps, success |
| Upload.UploadSucceedsIff | google-photo-uploader/main.go:277-296 | For a file not reported missing, upload succeeds exactly when the limit is at most zero or some attempt below the limit succeeds |
| Upload.MissingFileNeverInvokes | google-photo-uploader/main.go:263-265 | A missing file gives zero invocations and the file-missing error |
| Upload.NonPositiveRetryCountSucceeds | google-photo-uploader/main.go:277-296 | With a limit of zero or less: zero invocations, zero sleeps, success |
| Upload.StatErrorProceeds | google-photo-uploader/main.go:263 | A stat failure other than "does not exist" behaves exactly like a present file |
| Worker.ProcessItem | google-photo-uploader/main.go:241-255 | Removal is attempted exactly when the upload succeeded and deletion is on. It counts as removed exactly when attempted and `os.Remove` succeeds. The upload run is the one `uploadFile` gives |
| Worker.RemovalOutcomeIrrelevant | google-photo-uploader/main.go:249-255 | A removal failure changes neither the upload run nor the item's success |
| Worker.NoDeleteLeavesFile | google-photo-uploader/main.go:249 | With deletion off, removal is never attempted |
| Worker.MissingFileNotRemoved | google-photo-uploader/main.go:241-244 | A file missing at pop time is not uploaded, not removed, and the tool is not run |
| Worker.RemovedWithoutInvocation | google-photo-uploader/main.go:249-255 | With a limit of zero or less and deletion on, the file is removed with zero invocations of the tool |
| Worker.Drain | google-photo-uploader/main.go:230-257 | Draining a queue produces one report per popped item, in pop order, each the per-item handling of that item; nothing is re-queued |
| Worker.RemovalsMatchUploads | google-photo-uploader/main.go:241-255 | Over a drained queue, the number of removal attempts equals the number of successful uploads when deletion is on, and is zero otherwise |
| Watcher.HandleFileCreated | google-photo-uploader/main.go:194-206 | A path is queued, unchanged, exactly when its reference extension lower-cases to some allow-list entry |
| Watcher.OnInput | google-photo-uploader/main.go:175-189 | An input queues its own name exactly when it is an event whose mask has bit 0 set and whose reference extension lower-cases to some allow-list entry; errors queue nothing |
| Watcher.Watch | google-photo-uploader/main.go:171-190 | The watch loop queues no more paths than it received inputs, and every queued path's reference extension lower-cases to some allow-list entry |
| Watcher.WatchAppend | google-photo-uploader/main.go:171-190 | Inputs are handled in order and independently: the paths queued for `a + b` are those for `a` followed by those for `b` |
| Watcher.WatchMembership | google-photo-uploader/main.go:171-190 | A path is queued exactly when some input carries it as an event with mask bit 0 set and an extension matching the allow-list in the reference sense |
| Watcher.NonCreateIgnored | google-photo-uploader/main.go:180-188 | Inputs whose mask has bit 0 clear, and errors, queue nothing |
| Watcher.RecreatedFileQueuedTwice | google-photo-uploader/main.go:180-181 | There is no de-duplication: two create events for one supported path queue it twice |
| Watcher.CreateBitOnly | google-photo-uploader/main.go:180 | The create test depends only on bit 0 of the mask. Any mask with it set qualifies. Masks of the other operations alone do not |

## Left out

- The filesystem watcher, channels, the `select` on cancellation, the WaitGroup and `Start`/`Stop` (main.go:127-165) are concurrency and lifecycle plumbing. `Watch` and `Drain` model one watcher and one worker as sequential passes. The queue's capacity of 100, its blocking and its cancellation are not modelled.
- The settle delay before enqueueing and the cancellable send (main.go:201-210) are left out. A supported path is modelled as queued at once.
- `exec.Command`/`cmd.Run`, `os.Stat` and `os.Remove` are foreign I/O. Their results are inputs: `toolOk`, `stat` and `removeOk`.
- `time.Sleep` durations are left out. Each pause between attempts is one `Sleep` step, and `retry_interval` is not read.
- The worker count (`concurrent_uploads`, main.go:143-146) is left out, along with the interleaving of several workers.
- YAML loading, logger setup, `NewPhotoUploader` and `main` (main.go:66-124, 299-328) are thin wrappers over libraries outside this model. The logging settings are not part of `Config`.
- Log messages and the text of error values are left out. Errors are the datatype `UploadError`.
- Fold.EqualFold: only ASCII letters fold. Go's Unicode simple folding (for example the Kelvin sign against `k`) is not modelled, so two non-ASCII characters match only when equal.
- PathExt.Ext: only `/` is a separator, as on Unix. On Windows Go's `filepath.Ext` also stops at `\`, so for `C:\my.photos\README` Go gives `""` while the model gives `.photos\README`. The model also works on characters, where Go works on UTF-8 bytes. The positions of `.` and `/` are the same, because no byte of a multi-byte UTF-8 sequence is ASCII.
