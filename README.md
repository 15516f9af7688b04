# Model-download bookkeeping of expo-llm-mediapipe (Android)

This project models the bookkeeping that the Android module
`ExpoLlmMediapipeModule` does around downloading and loading LLM model
files, and proves properties of it in Dafny. Four parts are covered:

- **Content-Length parsing and total selection** (`ContentLength`).
  `parseContentLength` trims the header, removes underscores and parses a
  signed 64-bit `Long`. The total size is then picked from the header, the
  connection's `contentLengthLong` and its `contentLength`, with -1 when none
  is known.
- **The transfer loop of `downloadWithTimeout`** (`Transfer`). The response
  body is a sequence of chunks. Each chunk carries its bytes, the answer of
  `isActive()` and the clock reading after it. The loop is an imperative
  method, proved against prefix-recursive specification functions: the
  cancellation check before counting, the saturating `Long` counter, the
  bytes written to the temporary file, and the progress callbacks that are
  throttled to more than 100 ms apart.
- **The download registry and the publish of a finished download**
  (`Registry`, `Downloads`). `activeDownloads`, the model directory (final
  files and `<name>.temp` files as they stand between the class's steps),
  the per-job promise and the
  `downloadProgress` events are fields of a `DownloadManager` class.
  `downloadModel` is split into its synchronous admission (`DownloadModel`)
  and the end of its coroutine (`Finish`), which receives how the coroutine
  ended and applies the whole coroutine's effect on the directory and on
  the events in that one step. `cancelDownload`, `isModelDownloaded`, `getDownloadedModels` and
  `deleteDownloadedModel` are methods of the same class.
- **The inference-handle table** (`Handles`). `nextHandle` is a Kotlin
  `Int` with wrap-around, and `modelMap` maps handles to engines. The
  `createModel*` functions take a handle, and `releaseModel` removes one.

Everything the module gets from the outside world becomes a parameter:

- the connection's headers and lengths;
- the chunks read;
- the clock;
- the cancellation flag;
- whether an engine can be built or closed;
- whether a rename succeeds;
- whether the downloaded model file exists, for `createModelFromDownloaded`;
- whether an asset copy succeeds.

`Kotlin` holds the shared pieces: the `Int`/`Long` ranges and wrap-around,
nullable values, error codes, and promise replies.

## Model

| member | source | states |
|---|---|---|
| `Kotlin.WrapLong` | android/src/main/java/expo/modules/llmmediapipe/ExpoLlmMediapipeModule.kt:89 | `Long` arithmetic: the result is congruent to the exact value modulo 2^64, and equals it when it is in range |
| `Kotlin.WrapInt` | android/src/main/java/expo/modules/llmmediapipe/ExpoLlmMediapipeModule.kt:227 | `Int` arithmetic: the result is congruent to the exact value modulo 2^32, and equals it when it is in range |
| `ContentLength.IsWhitespace` | android/src/main/java/expo/modules/llmmediapipe/ExpoLlmMediapipeModule.kt:23-27 | the ASCII space, tab, line feed and carriage return are whitespace, and no digit, sign or underscore is |
| `ContentLength.IsBlank` | android/src/main/java/expo/modules/llmmediapipe/ExpoLlmMediapipeModule.kt:23 | a header is blank exactly when trimming its start, or its end, leaves nothing |
| `ContentLength.TrimStart` | android/src/main/java/expo/modules/llmmediapipe/ExpoLlmMediapipeModule.kt:27 | the result is a suffix of the input that does not start with whitespace |
| `ContentLength.TrimEnd` | android/src/main/java/expo/modules/llmmediapipe/ExpoLlmMediapipeModule.kt:27 | the result is a prefix of the input that does not end with whitespace |
| `ContentLength.Trim` | android/src/main/java/expo/modules/llmmediapipe/ExpoLlmMediapipeModule.kt:27 | `trim()` returns a prefix of what trimming the start leaves, so a slice of the header; it neither starts nor ends with whitespace, and it is empty exactly when the header is blank |
| `ContentLength.RemoveUnderscores` | android/src/main/java/expo/modules/llmmediapipe/ExpoLlmMediapipeModule.kt:27 | no `_` is left, the result is no longer than the input, and a string without `_` is unchanged |
| `ContentLength.RemoveUnderscoresKeeps` | android/src/main/java/expo/modules/llmmediapipe/ExpoLlmMediapipeModule.kt:27 | every character other than `_` is kept: the result holds the input's characters with exactly the underscores taken out, so it is shorter by the number of underscores |
| `ContentLength.ParseLong` | android/src/main/java/expo/modules/llmmediapipe/ExpoLlmMediapipeModule.kt:28 | `toLongOrNull` accepts only an optional `+` or `-` followed by at least one digit, and gives a non-negative value unless the text starts with `-` |
| `ContentLength.ParseContentLength` | android/src/main/java/expo/modules/llmmediapipe/ExpoLlmMediapipeModule.kt:22-29 | a missing or blank header gives null; which other headers give which value is stated by `ContentLength.HeaderExactly` |
| `ContentLength.SelectTotal` | android/src/main/java/expo/modules/llmmediapipe/ExpoLlmMediapipeModule.kt:62-68 | the header value wins even when negative; otherwise a non-negative `contentLengthLong` wins, then a non-negative `contentLength`; the result is -1 exactly when all three are missing or negative |
| `ContentLength.ParseDecimal` | android/src/main/java/expo/modules/llmmediapipe/ExpoLlmMediapipeModule.kt:28 | `toLongOrNull` reads back the decimal numeral of any integer: the value when it fits in a `Long`, null otherwise |
| `ContentLength.ParsePlusDecimal` | android/src/main/java/expo/modules/llmmediapipe/ExpoLlmMediapipeModule.kt:28 | a leading `+` is accepted: `+n` parses to `n` when it fits in a `Long` |
| `ContentLength.ParseNumeral` | android/src/main/java/expo/modules/llmmediapipe/ExpoLlmMediapipeModule.kt:28 | every numeral, with an optional `+` or `-` and any number of leading zeros, parses to its value when that fits in a `Long`, and to null otherwise |
| `ContentLength.ParseLongAccepts` | android/src/main/java/expo/modules/llmmediapipe/ExpoLlmMediapipeModule.kt:28 | whatever `toLongOrNull` accepts is a sign, leading zeros and the digits of a number, and the result is that number with that sign |
| `ContentLength.ParseLongExactly` | android/src/main/java/expo/modules/llmmediapipe/ExpoLlmMediapipeModule.kt:28 | `toLongOrNull` gives `v` exactly when the text is an optional sign agreeing with `v`, leading zeros and the digits of `v`, and `v` fits in a `Long`; any other text (`12a`, `-`, `1 2`) gives null |
| `ContentLength.ParseNatural` | android/src/main/java/expo/modules/llmmediapipe/ExpoLlmMediapipeModule.kt:28 | the numeral of a natural number parses to it when it is at most `Long.MAX_VALUE`, and to null otherwise |
| `ContentLength.ParseNegated` | android/src/main/java/expo/modules/llmmediapipe/ExpoLlmMediapipeModule.kt:28 | `-` followed by the numeral of `m` parses to `-m` when that is at least `Long.MIN_VALUE`, and to null otherwise |
| `ContentLength.TrimStartBlankPrefix` | android/src/main/java/expo/modules/llmmediapipe/ExpoLlmMediapipeModule.kt:27 | trimming the start drops any blank prefix in front of a string that starts with a non-blank character |
| `ContentLength.TrimEndBlankSuffix` | android/src/main/java/expo/modules/llmmediapipe/ExpoLlmMediapipeModule.kt:27 | trimming the end drops any blank suffix after a string that ends with a non-blank character |
| `ContentLength.TrimPadding` | android/src/main/java/expo/modules/llmmediapipe/ExpoLlmMediapipeModule.kt:27 | `trim` removes exactly the blank padding around a body whose ends are not whitespace |
| `ContentLength.HeaderRoundTrip` | android/src/main/java/expo/modules/llmmediapipe/ExpoLlmMediapipeModule.kt:22-29 | a header made of blank padding around a body that, without its underscores, is the numeral of `n` parses to `n` when `n` is a `Long`, and to null otherwise |
| `ContentLength.RemoveUnderscoresConcat` | android/src/main/java/expo/modules/llmmediapipe/ExpoLlmMediapipeModule.kt:27 | removing underscores from two pieces joined is joining the two pieces without underscores, so the order of the other characters is kept |
| `ContentLength.HeaderNumeral` | android/src/main/java/expo/modules/llmmediapipe/ExpoLlmMediapipeModule.kt:22-29 | a header of blank padding around any numeral with underscores in it, leading zeros and `+` included, parses to the numeral's value when it is a `Long`, and to null otherwise |
| `ContentLength.HeaderExactly` | android/src/main/java/expo/modules/llmmediapipe/ExpoLlmMediapipeModule.kt:22-29 | `parseContentLength` gives `v` exactly when the header is not blank and, trimmed and without underscores, is a numeral of `v` in `Long` range; every other header gives null |
| `ContentLength.UnderscoredHeaderExample` | android/src/test/java/expo/modules/llmmediapipe/DownloadWithTimeoutTest.kt:73-77 | `"3_200_000_000"` parses to 3200000000 |
| `Transfer.SaturatingAdd` | android/src/main/java/expo/modules/llmmediapipe/ExpoLlmMediapipeModule.kt:81-85 | the counter becomes `min(counter + count, Long.MAX_VALUE)`, never smaller than before and never above `Long.MAX_VALUE` |
| `Transfer.ReportedTotal` | android/src/main/java/expo/modules/llmmediapipe/ExpoLlmMediapipeModule.kt:92-96 | the reported total is never negative: the total when positive, else the bytes so far |
| `Transfer.ProgressOf` | android/src/main/java/expo/modules/llmmediapipe/ExpoLlmMediapipeModule.kt:91 | the fraction is zero when the total is not positive, and bytes/total otherwise |
| `Transfer.DueWhenInRange` | android/src/main/java/expo/modules/llmmediapipe/ExpoLlmMediapipeModule.kt:89 | the throttle `Due` uses a `Long` subtraction; while the clock has moved by less than the `Long` range, a callback is due exactly when more than 100 ms have passed since the last one |
| `Transfer.FirstInactive` | android/src/main/java/expo/modules/llmmediapipe/ExpoLlmMediapipeModule.kt:75-78 | the index of the first chunk after which `isActive()` was false, or the number of chunks if there is none |
| `Transfer.CoerceTimeout` | android/src/main/java/expo/modules/llmmediapipe/ExpoLlmMediapipeModule.kt:47 | the timeout handed to the connection lies in `[0, Int.MAX_VALUE]`, equals the requested one when that is in range, and is the point of the range nearest to it |
| `Transfer.DownloadWithTimeout` | android/src/main/java/expo/modules/llmmediapipe/ExpoLlmMediapipeModule.kt:62-104 | the transfer is cancelled exactly when some chunk found the flag down; only the chunks before that one are counted and written; the counter is the number of bytes written, capped at `Long.MAX_VALUE`; the total is the selected one; the callbacks are the throttled samples of those chunks |
| `Transfer.ReturnsTransferOutcome` | android/src/main/java/expo/modules/llmmediapipe/ExpoLlmMediapipeModule.kt:62-104 | the contract of `DownloadWithTimeout` determines its result: it is `TransferOutcome` of the same response, clock and chunks, the outcome every returned ending of a job must be |
| `Transfer.OneMoreChunk` | android/src/main/java/expo/modules/llmmediapipe/ExpoLlmMediapipeModule.kt:80-97 | one more chunk appends its bytes to the file, adds its length to the counter by saturating addition, and adds a callback with the new counter exactly when the throttle lets one through |
| `Transfer.WrittenPrefix` | android/src/main/java/expo/modules/llmmediapipe/ExpoLlmMediapipeModule.kt:86 | the temporary file only grows: what was written after fewer chunks is a prefix of what is written after more |
| `Transfer.CounterMonotone` | android/src/main/java/expo/modules/llmmediapipe/ExpoLlmMediapipeModule.kt:80-85 | the counter never decreases from chunk to chunk and never exceeds `Long.MAX_VALUE` |
| `Transfer.LastUpdateIsLastSample` | android/src/main/java/expo/modules/llmmediapipe/ExpoLlmMediapipeModule.kt:88-90 | `lastUpdateTime` is the clock reading of the last progress callback, or the start reading if there was none |
| `Transfer.SamplesThrottled` | android/src/main/java/expo/modules/llmmediapipe/ExpoLlmMediapipeModule.kt:88-90 | the first callback comes more than 100 ms after the start, and each later callback more than 100 ms after the one before |
| `Transfer.SamplesNondecreasing` | android/src/main/java/expo/modules/llmmediapipe/ExpoLlmMediapipeModule.kt:80-97 | the reported byte counts never go backwards and never pass the final counter |
| `Transfer.SamplesIncreasing` | android/src/main/java/expo/modules/llmmediapipe/ExpoLlmMediapipeModule.kt:80-97 | when every read returns data and the counter does not saturate, the reported byte counts strictly increase |
| `Transfer.SamplesReportTotals` | android/src/main/java/expo/modules/llmmediapipe/ExpoLlmMediapipeModule.kt:91-97 | every callback reports the total when it is positive and the bytes so far otherwise, with a zero fraction whenever the total is not positive |
| `Registry.Register` | android/src/main/java/expo/modules/llmmediapipe/ExpoLlmMediapipeModule.kt:592 | the new job is running and registered for its model; every other model keeps its entry and its job id; the only job added is the new one and every existing job is unchanged; the registry stays consistent with the jobs |
| `Registry.Cancel` | android/src/main/java/expo/modules/llmmediapipe/ExpoLlmMediapipeModule.kt:604-613 | the model is no longer registered and its job is marked cancelled, nothing else about it changing; every other model keeps its entry and job id, every other job is unchanged, and no job is added; an unregistered model changes nothing; consistency is kept |
| `Registry.DeregisterAsWritten` | android/src/main/java/expo/modules/llmmediapipe/ExpoLlmMediapipeModule.kt:588 | the model's entry is removed whatever job it belongs to; every other entry keeps its job id |
| `Registry.Deregister` | android/src/main/java/expo/modules/llmmediapipe/ExpoLlmMediapipeModule.kt:584-589 | only an entry belonging to the ending job is removed; every other entry is kept as it was |
| `Registry.FinishAsWritten` | android/src/main/java/expo/modules/llmmediapipe/ExpoLlmMediapipeModule.kt:584-589 | the ending job is marked finished and no other job changes; its model is unregistered, whoever the entry pointed to; every other entry keeps its job id |
| `Registry.Finish` | android/src/main/java/expo/modules/llmmediapipe/ExpoLlmMediapipeModule.kt:584-589 | the ending job is marked finished and no other job changes; every entry of another job is kept with its id and no entry gains one; no entry of the ending job's model still names it; the registry stays consistent with the jobs |
| `Registry.OneRunningPerName` | android/src/main/java/expo/modules/llmmediapipe/ExpoLlmMediapipeModule.kt:464-467 | in a consistent registry two running, uncancelled jobs for one model are the same job, and that model is registered, so `downloadModel` refuses it |
| `Registry.StaleFinallyDropsSuccessor` | android/src/main/java/expo/modules/llmmediapipe/ExpoLlmMediapipeModule.kt:584-613 | a download cancelled and restarted, whose first coroutine then ends, leaves the second download unregistered; a third download is then admitted while the second still runs |
| `Registry.FinishKeepsSuccessor` | android/src/main/java/expo/modules/llmmediapipe/ExpoLlmMediapipeModule.kt:584-589 | with the corrected `finally`, the same sequence keeps the second download registered and the registry consistent |
| `Downloads.LaunchKeepsBookkept` | android/src/main/java/expo/modules/llmmediapipe/ExpoLlmMediapipeModule.kt:476-592 | launching a download takes an id no job has and leaves its promise pending, keeping the registry consistent |
| `Downloads.EndKeepsBookkept` | android/src/main/java/expo/modules/llmmediapipe/ExpoLlmMediapipeModule.kt:584-600 | the promise of a job that ends was still pending, so it is settled once; the registry stays consistent; a cancelled job's end leaves `activeDownloads` as it is |
| `Downloads.TempName` | android/src/main/java/expo/modules/llmmediapipe/ExpoLlmMediapipeModule.kt:481 | the temporary file is the model's name with `.temp` appended, so it never coincides with the model file |
| `Downloads.ReportedOrdered` | android/src/main/java/expo/modules/llmmediapipe/ExpoLlmMediapipeModule.kt:80-97 | the progress callbacks of any ending a transfer can reach never report fewer bytes than an earlier one; after a transfer that returned, none reports more than its final counter |
| `Downloads.EndingEventsOrdered` | android/src/main/java/expo/modules/llmmediapipe/ExpoLlmMediapipeModule.kt:483-502 | a job's end only appends events; the `downloading` events it appends never report fewer bytes than an earlier one and none passes the bound on the ending's counter |
| `Downloads.DownloadManager.constructor` | android/src/main/java/expo/modules/llmmediapipe/ExpoLlmMediapipeModule.kt:242 | no download is registered or running over the given model directory |
| `Downloads.DownloadManager.DownloadModel` | android/src/main/java/expo/modules/llmmediapipe/ExpoLlmMediapipeModule.kt:459-592 | a model already being downloaded is refused with `ERR_ALREADY_DOWNLOADING`, and nothing changes; an existing model file without `overwrite` resolves true, and nothing changes; otherwise a fresh job is registered with a pending promise, and no file is touched |
| `Downloads.DownloadManager.CancelDownload` | android/src/main/java/expo/modules/llmmediapipe/ExpoLlmMediapipeModule.kt:604-613 | answers true exactly when the model was registered; its job is cancelled and the entry removed; no promise, file or event changes |
| `Downloads.DownloadManager.Finish` | android/src/main/java/expo/modules/llmmediapipe/ExpoLlmMediapipeModule.kt:478-600 | the job's promise is settled exactly once and no other promise changes; a successful transfer is published under the model's name; no temporary file is left after any ending that ran; the events and the reply follow the ending, and the `downloading` events the job appends are ordered and bounded by its counter; a cancelled job is always rejected with `ERR_DOWNLOAD_CANCELLED`; registry entries are removed by the corrected rule of `Registry.Finish` (see "## Left out") |
| `Downloads.DownloadManager.PublishFiles` | android/src/main/java/expo/modules/llmmediapipe/ExpoLlmMediapipeModule.kt:505-511 | the temporary file is always gone; on success the model file holds exactly the transferred bytes; after a failed rename there is no model file; other endings leave the model file alone |
| `Downloads.DownloadManager.Conclude` | android/src/main/java/expo/modules/llmmediapipe/ExpoLlmMediapipeModule.kt:513-600 | the `completed` event reports the published length and the total, or the length when the total is not positive; timeout, cancellation and error each send their own status; the reply is true, `ERR_DOWNLOAD_TIMEOUT`, `ERR_DOWNLOAD` or `ERR_DOWNLOAD_CANCELLED` to match; the `downloading` events it appends are ordered and bounded by the ending's counter |
| `Downloads.DownloadManager.Settle` | android/src/main/java/expo/modules/llmmediapipe/ExpoLlmMediapipeModule.kt:584-589 | the job's promise is settled with the reply and no other promise changes; the events become those given; the job ends in the registry by `Registry.Finish`, keeping the bookkeeping valid |
| `Downloads.DownloadManager.IsModelDownloaded` | android/src/main/java/expo/modules/llmmediapipe/ExpoLlmMediapipeModule.kt:440-443 | true exactly when the model file exists and is not empty |
| `Downloads.DownloadManager.GetDownloadedModels` | android/src/main/java/expo/modules/llmmediapipe/ExpoLlmMediapipeModule.kt:446-449 | every file in the model directory is listed once, and nothing else; this includes any `<name>.temp` the directory holds between steps, which is never a running job's (see "## Left out") |
| `Downloads.DownloadManager.DeleteDownloadedModel` | android/src/main/java/expo/modules/llmmediapipe/ExpoLlmMediapipeModule.kt:452-456 | answers whether the file existed (false for an absent one) and removes it; nothing else changes |
| `Downloads.PublishIsAtomic` | android/src/main/java/expo/modules/llmmediapipe/ExpoLlmMediapipeModule.kt:505-511 | after a job ends, the model file is either what it was before or exactly the transferred bytes, never a partial download |
| `Handles.HandleTable.constructor` | android/src/main/java/expo/modules/llmmediapipe/ExpoLlmMediapipeModule.kt:111-112 | `nextHandle` starts at 1 with no model loaded |
| `Handles.HandleTable.Allocate` | android/src/main/java/expo/modules/llmmediapipe/ExpoLlmMediapipeModule.kt:227 | `nextHandle++` returns the counter and moves it on with `Int` wrap-around; until the counter wraps, the handle is fresh |
| `Handles.HandleTable.CreateModel` | android/src/main/java/expo/modules/llmmediapipe/ExpoLlmMediapipeModule.kt:257-286 | the handle is taken first; success stores the engine under a fresh handle and resolves with it; a failed build rejects with `MODEL_CREATION_FAILED`, with the handle spent and the table unchanged |
| `Handles.HandleTable.CreateModelFromAsset` | android/src/main/java/expo/modules/llmmediapipe/ExpoLlmMediapipeModule.kt:288-323 | a failed asset copy rejects with `MODEL_CREATION_FAILED` before any handle is taken; after the copy it behaves as `createModel` on the copied path |
| `Handles.HandleTable.CreateModelFromDownloaded` | android/src/main/java/expo/modules/llmmediapipe/ExpoLlmMediapipeModule.kt:616-638 | a model not downloaded rejects with `ERR_MODEL_NOT_FOUND` with nothing changed; otherwise a handle is taken and the engine built with the options or their defaults (1024, 40, 42); a failed build rejects with `ERR_CREATE_MODEL` |
| `Handles.HandleTable.ReleaseModel` | android/src/main/java/expo/modules/llmmediapipe/ExpoLlmMediapipeModule.kt:325-349 | an unknown handle rejects with `INVALID_HANDLE` and leaves the table unchanged; a failed close rejects with `RELEASE_FAILED` and keeps the model; otherwise exactly that handle is removed and the promise resolves true |

## Left out

- The HTTP connection is not modelled: opening it, the request headers, `connect()` and `disconnect()` (ExpoLlmMediapipeModule.kt:42-50, 61, 105-107). The connection's answers (the header text and the two lengths) and the chunks it returns are inputs.
- The `withTimeout` wall-clock deadline is not modelled. A timeout appears only as an ending of the coroutine (`Downloads.Ending.TimedOut`). The default timeout of 30000 ms and the reading of `options` (:479-480) are left out with it.
- Coroutines, dispatchers, `AtomicBoolean` and `invokeOnCompletion` are not modelled as concurrent code. Settling is sequential: a job's end is one `Finish` step. A job cancelled before it ran is the `NeverStarted` ending.
- The window between `launch` and `activeDownloads[modelName] = downloadJob` (:478-592) is not modelled: admission and registration are one step.
- The progress fraction is an integer pair `num / den`, not the `Double` division of :91. The completed event's fraction of 1.0 is not recorded.
- Downloads.DownloadManager.Finish: the class removes registry entries with the corrected rule (`Registry.Finish`: a job removes only its own entry), not the unconditional `activeDownloads.remove(modelName)` of :588. The rule as written is modelled only by `Registry.DeregisterAsWritten`, `Registry.FinishAsWritten` and `Registry.StaleFinallyDropsSuccessor`. The stale `finally` also deletes `<name>.temp` (:585-586) while a successor may be writing it; the class does not model two jobs writing one temporary file.
- Downloads.DownloadManager.Finish: an ending is any one a transfer can reach (`FromTransfer`): a returned outcome is `TransferOutcome` of some response, start and chunks, and the callbacks of a timed-out or failed transfer are `Samples` of some chunks. Neither is tied to the job's own URL or headers, and the moment the deadline or the exception struck is not related to the chunks' clock.
- Downloads.DownloadManager.Finish: a job cancelled before it ran leaves any old temporary file in place. The promise still gets rejected.
- Downloads.DownloadManager.Finish: the running coroutine's effects appear only at its end, in the one `Finish` step. Between `DownloadModel` and `Finish`, the directory does not yet show the stale `<name>.temp` deleted (:52-54), nor the new one created (:71) and growing (:86). Likewise `events` holds none of the job's `downloading` events (:490-502). So `getDownloadedModels` and `deleteDownloadedModel` called during a transfer see the directory as it was before the job. A `deleteDownloadedModel("<name>.temp")` during the transfer, which in the source makes the rename at :509 fail after the old model file was deleted at :505-507, is reached only through the free `renameOk` input.
- Downloads.DownloadManager.DeleteDownloadedModel: a `File.delete()` that fails on an existing file is not modelled. The model removes the file and answers true.
- Downloads.DownloadManager.GetDownloadedModels: `listFiles()` returning null (an unreadable directory) is not modelled.
- The contents of the error messages are not modelled (for example "Timed out after …ms"). Only the error codes and event statuses are modelled. The `url` field that every `downloadProgress` event carries (:495, :516, :534, :554, :572) is left out of `Downloads.Event`, since the connection is not modelled.
- `temperature.toFloat()` is not modelled. Engines do not record the temperature.
- The `LlmInferenceModel` engine, `generateResponse`, `generateResponseAsync` and the inference listeners (:115-140, :351-437) are calls into a library that is not part of this model. The engine is represented by its configuration.
- `sendEvent` for `logging` and `Log.e` are not modelled. Only `downloadProgress` events are.
- `copyFileToInternalStorageIfNeeded` (:142-210) is asset-stream I/O. Its result is the `copiedPath` input of `CreateModelFromAsset`.
- scripts/prepare.js is build tooling and is not part of this model.
- `toLongOrNull` also accepts non-ASCII Unicode decimal digits. The model accepts ASCII `0`-`9` only.

## Findings

| source | as written | input that shows it | evidently intended | confidence | as-written member | corrected member |
|---|---|---|---|---|---|---|
| android/src/main/java/expo/modules/llmmediapipe/ExpoLlmMediapipeModule.kt:588 | a download coroutine's `finally` removes the `activeDownloads` entry of its model, whichever job that entry now belongs to | `downloadModel("m")`, then `cancelDownload("m")`, then `downloadModel("m")` again before the first coroutine has ended; the first coroutine then ends, which unregisters the second download; a third `downloadModel("m")` is admitted while the second still runs, and `cancelDownload("m")` can no longer reach the second | remove the entry only if it still belongs to the ending job | medium; not executed | `Registry.StaleFinallyDropsSuccessor` | `Registry.Finish` |
