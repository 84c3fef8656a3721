# SyllaScan schedule pipeline and session, in Dafny

SyllaScan is a single-file Flask dashboard. A user uploads a PDF syllabus. The app sends it to an OCR service, asks a generative-language service to pull out an FAQ, a weekly grading schedule and a summary, and keeps these in the user's session. It then draws two charts (cumulative grade weight by week, assignments by week) and answers questions about the syllabus text.

This project models the parts of `app.py` that are deterministic:

- **Normalisation of schedule items** (`extraction.dfy`, module `Extraction`). The service's JSON reply is a `Reply`. Each raw schedule item is coerced to an `Entry` by `Coerce`, which returns an `Option`. Items whose coercion fails are dropped. The kept entries are then stably sorted by week. Demo mode returns a fixed FAQ, schedule and summary instead.
- **Stable sort and sums** (`schedule.dfy`, module `Schedule`). `SortByWeek` is the stable sort by week that Python's `sorted` and `list.sort` perform. It is proved sorted, a permutation, and stable per week. `StableSortUnique` proves a stable sort has only one possible result, so this model agrees with Python's Timsort. `Total` is Python's `sum` of `weight_pct`.
- **Chart aggregators** (`charts.dfy`, module `Charts`). `CumulativeWeights` and `AssignmentsByWeek` are the two loops of the source, written as methods over sequences.
- **Blob store** (`blobs.dfy`, module `Blobs`). The file system is a map from path to contents, held by the `BlobStore` class. `Save` writes a blob under a path built from the temporary directory and a UUID token. `ReadBlob` reads it back in Python's text mode.
- **Session and routes** (`routes.dfy`, module `Routes`). The class `Session` has one field per session key. Its methods are `Index` (`GET /`), `Upload` (`POST /upload`) and `Ask` (`POST /ask`).
- **String helpers** (`text.dfy`, module `Text`): `str.strip()` over Python's whitespace set, `str.lower()`, and the `.pdf` suffix test.

External services and the environment are parameters:

- the OCR result and each service reply are `Result` values: success, or the message of the exception raised;
- the demo-mode flag is a `bool`;
- the temporary directory and `uuid4().hex` are strings.

Flash notices are returned by the routes as a `Notice` value instead of being queued in the session.

Modelling choices worth knowing:

- A JSON value in the reply is a `Value`. It records what Python's `int()`, `float()` and `str()` produce for it, with `None` where the conversion raises.
- A raw item that is not a JSON object is `NotObject`. On such an item `item.get` raises, so it is dropped.
- `_read_blob` opens the file in text mode, so universal newlines apply: `"\r\n"` and a lone `"\r"` both come back as `"\n"`. The model includes this. Reading a saved blob returns the exact text only when the text has no carriage return (`BlobStore.Save`, `ReadNewlinesIdentity`).
- The demo schedule's weights sum to 95 (`MockScheduleTotal`), so a demo upload gets the plain completion notice, without "(may be incomplete)".

## Model

| member | source | states |
|---|---|---|
| `Text.Strip` | app.py:566 | the stripped string neither starts nor ends with whitespace and is no longer than the input |
| `Text.StripSpec` | app.py:648-649 | the stripped string is an infix with only whitespace around it; it is empty exactly when the input is all whitespace |
| `Text.TrimStartSpec` | app.py:648 | leading removal takes off only whitespace and keeps the rest as a suffix |
| `Text.TrimEndSpec` | app.py:648 | trailing removal takes off only whitespace and keeps the rest as a prefix |
| `Text.StripFixed` | app.py:649 | a string with no whitespace at either end is its own strip |
| `Text.StripIdempotent` | app.py:649 | stripping twice is stripping once |
| `Text.Lower` | app.py:617 | the lower-cased name has the input's length, and each character is the lower-case form of the input's character |
| `Text.IsPdfName` | app.py:617 | the extension test: the lower-cased name ends with `.pdf` |
| `Text.PdfNameCharacterised` | app.py:617 | `filename.lower().endswith(".pdf")` holds exactly when the last four characters are `.`, `p`/`P`, `d`/`D`, `f`/`F` |
| `Schedule.SortByWeek` | app.py:570 | the sort result is ordered by week, has the input's length and is a permutation of it |
| `Schedule.SortByWeekStable` | app.py:578 | for every week, the sorted entries of that week are the input's entries of that week in input order; nothing is merged |
| `Schedule.StableSortUnique` | app.py:588 | two week-sorted sequences that agree on every week's entries are equal, so any stable sort by week gives `SortByWeek` |
| `Schedule.Total` | app.py:635 | the total weight: the sum of `weight_pct` in list order |
| `Schedule.TotalNonNegative` | app.py:635 | with no negative weight the total is not negative |
| `Schedule.InBand` | app.py:636 | the sanity band is 90 to 110 inclusive |
| `Schedule.TotalSortByWeek` | app.py:577-581 | sorting leaves the total weight unchanged |
| `Schedule.PairsPermutation` | app.py:588-590 | the sorted (week, assignments) pairs are a permutation of the input's pairs |
| `Schedule.PairsWithWeekOf` | app.py:588-590 | selecting one week's pairs from the pairs of a schedule gives the pairs of that week's entries, in order |
| `Extraction.Coerce` | app.py:561-567 | an item is kept exactly when it is an object whose `week` converts to an integer and whose `assignments` and `weight_pct`, where present, convert too; present fields keep their converted values and the notes are the stripped text; a missing `assignments` gives 0, a missing `weight_pct` gives 0.0 and missing `notes` give "" |
| `Extraction.KeepSome` | app.py:559-569 | the kept values are never more than the items |
| `Extraction.KeepSomeSingle` | app.py:561-569 | one item contributes its value when it converts and nothing when it does not |
| `Extraction.KeepSomeAppend` | app.py:559-569 | the kept values of a concatenation are the kept values of each part, in order, so every coercible item is kept once, in input order |
| `Extraction.Coerced` | app.py:559-569 | the coercion loop before the sort: the items' coerced entries, failures dropped |
| `Extraction.KeepSomeMembers` | app.py:560-568 | a value is kept exactly when some input item maps to it, i.e. failing items are dropped and no other value appears |
| `Extraction.CoercedMembers` | app.py:560-568 | an entry survives the coercion loop exactly when some raw item coerces to it |
| `Extraction.Normalize` | app.py:559-570 | the normalised schedule is the stable sort of the coercible items: no longer than the input, sorted by week, a permutation of the kept entries, and it contains exactly the entries some item coerces to |
| `Extraction.NormalizeStable` | app.py:570 | normalisation keeps each week's entries in input order |
| `Extraction.ExtractStructured` | app.py:506-571 | demo mode returns the fixed structure; a failed reply propagates its message; a parsed reply gives its FAQ (default empty), normalised schedule (default empty) and summary (default "") |
| `Extraction.Demo` | app.py:506-527 | the demo structure has the three FAQ keys, and a 13-entry schedule with weeks 1 to 13 in order whose weights sum to 95 |
| `Extraction.MockFaqKeys` | app.py:507-511 | the demo FAQ has exactly the keys `late_work_policy`, `attendance_policy`, `course_structure` |
| `Extraction.MockScheduleWeeks` | app.py:512-526 | the demo schedule has 13 entries, weeks 1 to 13 in order |
| `Extraction.MockScheduleTotal` | app.py:512-526 | the demo schedule's weights sum to 95, inside the 90–110 band |
| `Charts.CumulativeWeights` | app.py:574-582 | both outputs have the schedule's length; the weeks are the sorted weeks and never decrease; the cumulative list is the running total along the sorted schedule |
| `Charts.RunningTotals` | app.py:579-581 | element k of the running totals is the sum of the first k+1 weights |
| `Charts.RunningTotalsStep` | app.py:580-581 | each running total is the previous one (0 before the first) plus the weight of its own entry |
| `Charts.RunningTotalsLast` | app.py:580-581 | the last running total is the sum of all weights |
| `Charts.CumulativeEndsAtTotal` | app.py:577-582 | the last cumulative value equals the sum of every `weight_pct` of the input, duplicates included |
| `Charts.RunningTotalsMonotone` | app.py:580-581 | with no negative weight the running totals never decrease |
| `Charts.CumulativeMonotone` | app.py:577-581 | with no negative weight in the schedule, the cumulative chart never goes down |
| `Charts.AssignmentsByWeek` | app.py:585-591 | both outputs have the schedule's length; week and count at k are those of the k-th sorted entry; the weeks never decrease; the (week, count) pairs are a permutation of the input's pairs, and for every week they list that week's input entries in input order |
| `Blobs.ReadNewlines` | app.py:492-493 | text-mode reading leaves no carriage return and never lengthens the text |
| `Blobs.ReadNewlinesIdentity` | app.py:492-493 | text without a carriage return reads back unchanged |
| `Blobs.JoinPath` | app.py:484 | the joined path starts with the directory and ends with the name, with a `/` inserted exactly when the directory is non-empty and does not end in one |
| `Blobs.BlobPath` | app.py:484 | a blob path is never empty and ends in `.txt` |
| `Blobs.ReadBlob` | app.py:489-496 | an empty path or a missing file reads as ""; what is read has no carriage return |
| `Blobs.BlobStore.Save` | app.py:482-487 | the file at the returned path now holds the content and nothing else changes; reading it back gives the content with newlines normalised, and exactly the content when it has no carriage return |
| `Routes.CompletionNotice` | app.py:635-639 | the success notice carries the summed weight and says "(may be incomplete)" exactly when the total is below 90 or above 110 |
| `Routes.DemoUploadNotice` | app.py:636-637 | a demo upload gets the plain notice with total 95 |
| `Routes.Answer` | app.py:661-678 | the stored answer is never empty; in demo mode it is the demo prefix, then the question, then the demo suffix; with a reply it is the stripped reply when that is not blank and the fixed fallback when it is, never with whitespace at either end; with a failure it is `Q&A failed: ` followed by the error message |
| `Routes.DemoAnswerRecoversQuestion` | app.py:662 | two equal demo answers were built from the same question |
| `Routes.ServiceAnswerStripped` | app.py:674 | an answer from the service is already stripped: stripping it again changes nothing |
| `Routes.Session.StoredText` | app.py:599 | the text the session's stored path points to: "" when no path is stored or the file is missing, and never with a carriage return |
| `Routes.Session.Index` | app.py:597-608 | the page shows the stored FAQ, schedule, summary and blob text and the previous last answer; the last answer is removed and nothing else changes |
| `Routes.Session.Upload` | app.py:611-644 | no file, an empty filename, a non-`.pdf` name, or an OCR or extraction failure leaves the session and the files unchanged with the matching error notice; otherwise the OCR text is saved to a new blob, the path, FAQ, schedule and summary are overwritten, the last answer is kept, and the completion notice is emitted |
| `Routes.Session.Ask` | app.py:647-680 | a blank question or empty stored text leaves the session unchanged with the matching notice; otherwise only the last answer changes, to the computed answer |
| `Routes.AnswerShownOnce` | app.py:599-606 | after a successful ask, the first page view shows the answer and an immediately following one shows none, with the other fields the same |

## Left out

- Flask routing, redirects, flash rendering, the HTML template and CSS: presentation only. Flash messages are returned as `Notice` values, and the `:.1f` formatting of the total weight is not modelled.
- The OCR service, PDF rasterisation, the generative-language calls and their prompts are external services. Their results are parameters, including the fixed OCR text returned in demo mode.
- `json.loads` and the `\{.*\}` regex fallback are library calls. The reply comes in already parsed as a `Reply`, or as a failure with its message.
- Non-dict top-level JSON replies and non-string FAQ or summary values are not modelled. The first raises (a failure reply); the others are values the schedule logic never looks at.
- A `schedule` that is not a list is not a separate case. A string or a JSON object is iterated by character or by key; `item.get` then raises inside the per-item `try`, so it behaves like a list of `NotObject` items and the upload succeeds with an empty schedule. A number or `null` makes the loop itself raise, which is a failure reply.
- Python's `int()`/`float()`/`str()` conversions are not modelled: `Value` records their outcomes. Infinite and NaN floats are not representable.
- `Extraction.Coerce`: every field is read whether or not an earlier one failed. Python stops at the first exception, but either way the item is dropped, so the result is the same.
- `Text.Lower`: only ASCII letters are lower-cased. `Text.PdfNameCharacterised` shows the `.pdf` test depends only on the last four characters, and no non-ASCII character lower-cases to `.`, `p`, `d` or `f`.
- `weight_pct` is a mathematical real, so IEEE rounding in the running sums is not modelled.
- `Blobs.ReadBlob`: `_read_blob` catches only `FileNotFoundError`. A directory, an unreadable file or non-UTF-8 content at the path makes it raise, and in `index` and `ask` that call is outside any `try`, so the request fails. The model has only present and missing files.
- `BlobStore.Save`: file-system errors are not modelled, and the temporary directory and UUID are parameters. Blob paths are built with POSIX `os.path.join`, and the text is written without newline translation, as on POSIX (elsewhere text mode `"w"` writes `os.linesep` for each `"\n"`). Reading in text mode turns every line ending into `"\n"` on all platforms, which `ReadNewlines` models.
- `list.sort` and `sorted` are both stable Timsorts; only `list.sort` sorts in place. Both are modelled by the value `SortByWeek`, which `Schedule.StableSortUnique` shows is the only possible result of a stable sort.
- The chart routes (`/chart/weights`, `/chart/assignments`), matplotlib rendering and the placeholder PNG are image output. Only the aggregators they call are modelled.
- Concurrent requests on one session: the code does no coordination, so there is nothing to model.
- Session creation, expiry and the server-side session store are framework behaviour. A new `Session` starts with every key absent.
