# PDB download scripts, modelled in Dafny

This project models the two data-download scripts of the repository.

`scripts/download_data/get_pdb_ids.py` pages through the RCSB search
service. It collects the distinct PDB identifiers the service returns and
saves them, sorted, one per line.

`scripts/download_data/download_assemblies.py` reads such a list and turns
every identifier whose biological-assembly file is not yet on disk into a
download task. It runs the tasks, writes each body fetched with HTTP 200,
then reports how many succeeded. When some download failed, it writes a
failure log with one `url: status` line per failure.

Both scripts change state step by step, so each loop is a Dafny `method`
with loop invariants. Each method is proved against a specification
function, and lemmas prove properties of those functions:

- `PdbIds.GetPdbIds` is proved against `Fetch`/`Crawl`, the pagination loop
  written as a recursive function over the loop's variables (`Loop`, `Guard`,
  `Next`).
- `Assemblies.PlanDownloads`, `GatherDownloads`, `CollectFailures`,
  `SaveFailureLog` and `Run` are proved against `Plan`, `Results`, `Written`,
  `FailureLines`, `Logged` and `Batch`. `Batch` is the whole of `main` as a
  function.

The outside world is passed in as parameters:

- The search service is a function `server: nat -> Response` from the
  request's `paginate.start` to its answer. Offsets strictly increase from
  one request to the next, so a function of the offset is as general as any
  sequence of answers.
- The network is `net: nat -> Outcome`, where `net(i)` is how the request of
  the i-th submitted task ends: a response with a status and a body, a
  timeout, or another exception given by its type name.
- The disk is a `map<Path, Contents>`, and a path exists when it is a key.
  Paths are compared as strings, so two spellings of the same file (which
  pathlib or the file system would treat as one) are two keys here.
- The input file is its decoded text.

Modules:

- `Text` holds the Python string primitives the scripts use: `str.strip`,
  `str.upper`/`str.lower`, line iteration over a text file, writing one line
  per item, and `int` formatting.
- `Order` holds Python's `str` ordering and `sorted(list(s))`.
- `PdbIds` models `get_pdb_ids.py`.
- `Assemblies` models `download_assemblies.py`. It also proves that the file
  written by the first script reads back as the same list in the second,
  provided every identifier is non-empty, has no lower-case letter, no
  whitespace at either end and no `\n` or `\r` (an identifier `1abc`, say,
  would read back as `1ABC`).

Two properties one might expect do not hold of the code as written. The
model follows the code:

- The number of identifiers gathered can exceed the service's
  `total_count`. `start` advances by the number of distinct IDs on a page,
  and a page is kept whole. `PdbIds.FetchMayExceedCount` exhibits a server
  for which two IDs are returned against a count of 1.
- A run without failures does not remove a failure log left by an earlier
  run. The log is absent only on a disk that never had one
  (`Assemblies.BatchLog`).

## Model

| member | source | states |
|---|---|---|
| `Text.IsSpace` | scripts/download_data/download_assemblies.py:40 | the characters `str.strip()` removes: Python's `str.isspace`, i.e. the C0 separators, space, NEL, NBSP and the Unicode space separators |
| `Text.Strip` | scripts/download_data/download_assemblies.py:40 | `str.strip()` with no argument: characters of Python's `isspace` set are removed from both ends; what this guarantees is stated by `Text.StripSpec` |
| `Text.StripSpec` | scripts/download_data/download_assemblies.py:40 | `strip()` returns an inner slice of the line: everything removed before and after it is whitespace, and the result neither starts nor ends with whitespace |
| `Text.StripOfTrimmed` | scripts/download_data/download_assemblies.py:40 | a non-empty string with no whitespace at either end is its own strip |
| `Text.StripDropsNewline` | scripts/download_data/download_assemblies.py:39-40 | stripping a line read with its `\n` gives the same result as stripping it without the `\n` |
| `Text.Upper` | scripts/download_data/download_assemblies.py:40 | an upper-cased string has no lower-case letter, and it lower-cases to the same string as the input, since only the case of letters changes |
| `Text.Lower` | scripts/download_data/download_assemblies.py:46 | a lower-cased string has no upper-case letter, and each of its characters upper-cases to the same character as the input's |
| `Text.IsUpperFixed` | scripts/download_data/download_assemblies.py:40 | `upper()` leaves a string unchanged exactly when it has no lower-case letter |
| `Text.UpperKeepsShape` | scripts/download_data/download_assemblies.py:40 | an upper-cased string has no lower-case letter, keeps whitespace at its ends, and gains no line break |
| `Text.LowerInjectiveOnUpper` | scripts/download_data/download_assemblies.py:46 | under the ASCII case mapping, two upper-case identifiers with the same lower-case form are equal, so distinct identifiers get distinct file names (see "## Left out") |
| `Text.LowerKeepsNewline` | scripts/download_data/download_assemblies.py:46 | lower-casing introduces no line break |
| `Text.Universal` | scripts/download_data/download_assemblies.py:39 | universal-newline reading leaves no carriage return in the text; with `Text.UniversalBreak` and `Text.UniversalWithoutCR` this determines the translation |
| `Text.UniversalBreak` | scripts/download_data/download_assemblies.py:39 | a `\r` after text without one becomes a `\n`, and a `\n` right after it is dropped, so `\r\n` and a lone `\r` each end exactly one line |
| `Text.UniversalWithoutCR` | scripts/download_data/download_assemblies.py:39 | a text without carriage returns reads unchanged |
| `Text.LineLength` | scripts/download_data/download_assemblies.py:39-40 | the first line runs up to and including the first `\n`, or to the end of the text |
| `Text.Lines` | scripts/download_data/download_assemblies.py:39-40 | iterating a file yields non-empty lines that concatenate to the text; each line but the last ends in `\n`, and no line holds an inner `\n` |
| `Text.JoinLines` | scripts/download_data/download_assemblies.py:85-87 | the text a freshly opened file holds after each item has been written followed by `\n`, in order |
| `Text.Terminated` | scripts/download_data/download_assemblies.py:86-87 | the newline-terminated lines, one per item, concatenate to exactly the text written line by line |
| `Text.LinesOfJoin` | scripts/download_data/download_assemblies.py:85-87 | text written as `f"{line}\n"` for each item reads back as one `\n`-terminated line per item, provided no item holds a `\n` |
| `Text.JoinLinesWithoutCR` | scripts/download_data/get_pdb_ids.py:92-94 | text written line by line has no carriage return unless an item has one |
| `Text.WriteLines` | scripts/download_data/download_assemblies.py:85-87 | the write loop produces exactly the items, each followed by `\n`, in order |
| `Text.IntToString` | scripts/download_data/download_assemblies.py:24 | an `int` in an f-string: `-` before the digits of a negative value, the bare digits otherwise |
| `Text.NatToString` | scripts/download_data/download_assemblies.py:24 | a formatted natural number is a non-empty run of decimal digits with no leading zero |
| `Text.DigitsRoundTrip` | scripts/download_data/download_assemblies.py:24 | the decimal digits printed for n parse back to n |
| `Text.SignShows` | scripts/download_data/download_assemblies.py:24 | a formatted integer starts with `-` exactly when the integer is negative |
| `Text.IntToStringInjective` | scripts/download_data/download_assemblies.py:24 | different status codes are printed differently |
| `Order.Less` | scripts/download_data/get_pdb_ids.py:84 | Python's `<` on `str`: the first differing code point decides, and a proper prefix sorts first |
| `Order.LessIrreflexive` | scripts/download_data/get_pdb_ids.py:84 | no string sorts before itself |
| `Order.LessTransitive` | scripts/download_data/get_pdb_ids.py:84 | Python's string order is transitive |
| `Order.LessTotal` | scripts/download_data/get_pdb_ids.py:84 | any two distinct strings are ordered one way or the other |
| `Order.LessAsymmetric` | scripts/download_data/get_pdb_ids.py:84 | a string that sorts before another never also sorts after it |
| `Order.StrictlySortedDistinct` | scripts/download_data/get_pdb_ids.py:84 | a strictly increasing list holds no duplicates |
| `Order.Least` | scripts/download_data/get_pdb_ids.py:84 | a non-empty set has a member below all its other members |
| `Order.SortedIds` | scripts/download_data/get_pdb_ids.py:84 | `sorted(list(s))` is strictly increasing, holds exactly the members of s, and has one entry per member |
| `Order.SortedUnique` | scripts/download_data/get_pdb_ids.py:84 | any strictly increasing list of exactly the members of s is `sorted(list(s))` |
| `PdbIds.Answered` | scripts/download_data/get_pdb_ids.py:65 | an answer is used exactly when its status is 200; any other status ends the loop |
| `PdbIds.PageIds` | scripts/download_data/get_pdb_ids.py:75 | the set of a page's identifiers holds exactly its `identifier` values, and is non-empty when `result_set` is |
| `PdbIds.Next` | scripts/download_data/get_pdb_ids.py:71-78 | after a 200 answer the count is known, a known count never changes, and a non-empty page moves `start` forward |
| `PdbIds.Guard` | scripts/download_data/get_pdb_ids.py:61 | the loop continues while the count is unknown (-1) or the offset is below it |
| `PdbIds.Crawl` | scripts/download_data/get_pdb_ids.py:61-82 | the while loop run from a state of its variables: stop when the guard fails; after a non-200 answer stop with the state unchanged; after an empty 200 page stop with that page's step applied; otherwise apply the step and loop |
| `PdbIds.Turn` | scripts/download_data/get_pdb_ids.py:61-82 | one turn of the loop: a full stop, a non-200 answer or an empty page ends the run with what is held; any other answer resumes it from the next state |
| `PdbIds.Initial` | scripts/download_data/get_pdb_ids.py:54-56 | the loop starts at offset 0 with the count unknown and no IDs, so its guard holds and a first request is always sent |
| `PdbIds.Fetch` | scripts/download_data/get_pdb_ids.py:54-82 | a whole run: the loop from offset 0, an unknown count and no IDs |
| `PdbIds.Gathered` | scripts/download_data/get_pdb_ids.py:75-76 | the union of the page sets of the answers with status 200 at the given offsets |
| `PdbIds.GetPdbIds` | scripts/download_data/get_pdb_ids.py:50-84 | the loop sends the requests of `Fetch(server)`, in order, and returns its set of IDs sorted, which is strictly increasing |
| `PdbIds.CrawlGathers` | scripts/download_data/get_pdb_ids.py:61-82 | the IDs held at the end are those held before plus the IDs of every page answered with 200 |
| `PdbIds.GatheredCons` | scripts/download_data/get_pdb_ids.py:65-76 | the pages gathered at a first offset and then at more are the first page, if answered with 200, plus the rest |
| `PdbIds.CrawlOffsets` | scripts/download_data/get_pdb_ids.py:61-78 | the first request asks for the current offset; each later one asks for the previous offset plus the number of distinct IDs on the previous page; every request but the last got a non-empty 200 page; the loop ends at the last offset plus the last page's size |
| `PdbIds.CrawlStops` | scripts/download_data/get_pdb_ids.py:61-82 | the loop stops only after a non-200 answer, an empty page, or once `start` reaches the known count |
| `PdbIds.CrawlKeepsCount` | scripts/download_data/get_pdb_ids.py:61-73 | once known, `total_count` never changes, every later request's offset is below it, and at most `total_count - start` more requests are sent |
| `PdbIds.CrawlBounded` | scripts/download_data/get_pdb_ids.py:75-78 | the set never holds more IDs than `start` has advanced, and `start` never decreases |
| `PdbIds.FetchSummary` | scripts/download_data/get_pdb_ids.py:50-84 | a run starts at offset 0; its result is the union of the pages answered with 200 and holds no more IDs than the final offset; a first answer other than 200 yields nothing; otherwise the count comes from the first answer alone, bounds every later offset, and at most max(1, count) requests are sent |
| `PdbIds.FetchMayExceedCount` | scripts/download_data/get_pdb_ids.py:71-78 | a server whose first page holds two IDs against a `total_count` of 1 makes the run return two IDs |
| `PdbIds.SaveIds` | scripts/download_data/get_pdb_ids.py:90-94 | a file is written exactly when the list is non-empty, holding each ID followed by `\n`, in order |
| `Assemblies.IdOfLine` | scripts/download_data/download_assemblies.py:40 | one input line gives its stripped, upper-cased text, or nothing when it strips to the empty string |
| `Assemblies.KeepIds` | scripts/download_data/download_assemblies.py:40 | the identifiers of a list of lines: each line's contribution, in line order |
| `Assemblies.ReadIds` | scripts/download_data/download_assemblies.py:39-40 | the identifiers of an input file's text: its lines as text-mode iteration yields them, then `KeepIds` |
| `Assemblies.IdOfLineNormalised` | scripts/download_data/download_assemblies.py:40 | a line contributes nothing, or one non-empty upper-case identifier with no whitespace at either end |
| `Assemblies.KeepIdsNormalised` | scripts/download_data/download_assemblies.py:40 | every identifier read is normalised, and there are no more identifiers than lines |
| `Assemblies.KeepIdsConcat` | scripts/download_data/download_assemblies.py:40 | reading keeps input order and drops whole lines only: reading two runs of lines is reading each and concatenating |
| `Assemblies.StripInsideLine` | scripts/download_data/download_assemblies.py:40 | stripping a line with no inner `\n` leaves no `\n` |
| `Assemblies.IdOfLineNoNewline` | scripts/download_data/download_assemblies.py:40 | an identifier read from one line holds no line break |
| `Assemblies.KeepIdsNoNewline` | scripts/download_data/download_assemblies.py:40 | no identifier read from a list of lines holds a line break |
| `Assemblies.ReadIdsNoNewline` | scripts/download_data/download_assemblies.py:39-40 | no identifier read from a file holds a line break |
| `Assemblies.IdOfWrittenLine` | scripts/download_data/download_assemblies.py:40 | a normalised identifier written as a line reads back as itself |
| `Assemblies.KeepTerminated` | scripts/download_data/download_assemblies.py:40 | `\n`-terminated lines of normalised identifiers read back as those identifiers |
| `Assemblies.ReadBackSavedIds` | scripts/download_data/download_assemblies.py:39-40 | the file `get_pdb_ids.py` writes reads back as the same list, when each ID is normalised and has no line break |
| `Assemblies.FileName` | scripts/download_data/download_assemblies.py:46 | the lower-cased identifier followed by `-assembly1.cif.gz` |
| `Assemblies.Join` | scripts/download_data/download_assemblies.py:48 | pathlib's `/`, as used here and for the log path at line 34: the directory, `/`, then the name; paths are compared as strings, so pathlib's normalisation is not modelled (see "## Left out") |
| `Assemblies.LogPath` | scripts/download_data/download_assemblies.py:34 | the failure log is `download_log.txt` inside the output directory |
| `Assemblies.TaskFor` | scripts/download_data/download_assemblies.py:46-48 | an identifier's task: the base URL plus its file name, and the output directory joined with its file name |
| `Assemblies.TaskForDistinct` | scripts/download_data/download_assemblies.py:46-48 | under the ASCII case mapping and with paths compared as strings, distinct upper-case identifiers get distinct URLs and distinct paths; no assembly path is the log's path (see "## Left out") |
| `Assemblies.Plan` | scripts/download_data/download_assemblies.py:44-52 | the planned tasks: each identifier's task, in input order, unless its path is among the existing paths |
| `Assemblies.TaskIfMissing` | scripts/download_data/download_assemblies.py:50-52 | one identifier's contribution to the plan: its task when its path does not exist, nothing otherwise |
| `Assemblies.PlanMembers` | scripts/download_data/download_assemblies.py:44-52 | a task is planned exactly when some identifier yields it and its file does not exist |
| `Assemblies.PlanConcat` | scripts/download_data/download_assemblies.py:44-52 | planning keeps input order and keeps duplicates: planning two runs of identifiers is planning each and concatenating |
| `Assemblies.PlanEmpty` | scripts/download_data/download_assemblies.py:44-56 | nothing is planned exactly when every identifier's file exists |
| `Assemblies.PlanSnoc` | scripts/download_data/download_assemblies.py:45-52 | planning one more identifier appends its task, unless its file exists |
| `Assemblies.PlanDownloads` | scripts/download_data/download_assemblies.py:44-52 | the planning loop builds exactly `Plan` of the identifiers |
| `Assemblies.Succeeded` | scripts/download_data/download_assemblies.py:18 | a request succeeded exactly when it ended in a response with status 200 |
| `Assemblies.Label` | scripts/download_data/download_assemblies.py:22-28 | the status string of an outcome: "Success" exactly for a 200 response; any other outcome gets a string starting `Failed (` and ending `)` |
| `Assemblies.Store` | scripts/download_data/download_assemblies.py:18-21 | the disk after one download: the body is stored at the path on a 200 response, and the disk is unchanged otherwise |
| `Assemblies.DownloadFile` | scripts/download_data/download_assemblies.py:10-28 | the URL is returned unchanged; the status is "Success" exactly on HTTP 200, and otherwise "Failed (HTTP n)", "Failed (TimeoutError)" or "Failed (Name)"; the body is written to the path only on 200 |
| `Assemblies.LabelHttpDistinct` | scripts/download_data/download_assemblies.py:24 | different HTTP error codes give different statuses |
| `Assemblies.LabelNoNewline` | scripts/download_data/download_assemblies.py:22-28 | a status holds a line break only when the exception's type name does |
| `Assemblies.Results` | scripts/download_data/download_assemblies.py:67-73 | `gather` returns one result per task, in submission order; a result's status is "Success" exactly when its task's request ended in a 200 response |
| `Assemblies.ResultsSnoc` | scripts/download_data/download_assemblies.py:67-73 | the results of one more task append that task's result |
| `Assemblies.Written` | scripts/download_data/download_assemblies.py:68-73 | the disk after the first n tasks, each task's outcome stored in submission order |
| `Assemblies.WrittenPaths` | scripts/download_data/download_assemblies.py:18-21 | after the first n tasks, a path exists exactly when it existed before or one of them got 200 for it; a path none of them wrote keeps its contents |
| `Assemblies.WrittenLast` | scripts/download_data/download_assemblies.py:18-21 | a written path holds the body of the last successful task for it |
| `Assemblies.FailureLines` | scripts/download_data/download_assemblies.py:76-78 | a `url: status` line for each result whose status is not "Success", in result order |
| `Assemblies.FailureOf` | scripts/download_data/download_assemblies.py:77-78 | one result's contribution to the failure lines: `url: status` when its status is not "Success", nothing otherwise |
| `Assemblies.SuccessCount` | scripts/download_data/download_assemblies.py:80 | the number of results whose status is "Success" |
| `Assemblies.Accounting` | scripts/download_data/download_assemblies.py:76-80 | each result is a success or gives a failure line, never both |
| `Assemblies.FailureLinesConcat` | scripts/download_data/download_assemblies.py:76-78 | failure lines follow result order |
| `Assemblies.FailureLinesNoNewline` | scripts/download_data/download_assemblies.py:76-78 | a failure line holds no line break when neither its URL nor its status does |
| `Assemblies.FailureLinesSnoc` | scripts/download_data/download_assemblies.py:76-78 | one more result appends its failure line, if it failed |
| `Assemblies.FailureLinesMembers` | scripts/download_data/download_assemblies.py:76-78 | the failure lines are exactly the `url: status` lines of the results whose status is not "Success" |
| `Assemblies.CollectFailures` | scripts/download_data/download_assemblies.py:76-78 | the collection loop builds exactly `FailureLines` of the results |
| `Assemblies.GatherDownloads` | scripts/download_data/download_assemblies.py:64-73 | running the tasks returns `Results` and leaves the disk with every task's outcome stored in submission order |
| `Assemblies.SaveFailureLog` | scripts/download_data/download_assemblies.py:83-87 | the log file is written, with one `\n`-terminated line per failure, exactly when there are failures; otherwise the disk is unchanged |
| `Assemblies.Logged` | scripts/download_data/download_assemblies.py:83-87 | the disk after the log step: unchanged when nothing failed, otherwise the log path (over)written with the failure lines, each followed by `\n` |
| `Assemblies.Planned` | scripts/download_data/download_assemblies.py:39-52 | the tasks `main` plans for an input file's text and a disk: the plan of the identifiers read, against the paths that exist |
| `Assemblies.Download` | scripts/download_data/download_assemblies.py:58-87 | the part of `main` after planning: the report holds the task count, the task count minus the failure lines as successes, and the failure lines of the gathered results; the disk is the one the downloads leave, with the log step applied |
| `Assemblies.Batch` | scripts/download_data/download_assemblies.py:38-87 | the whole of `main` as a function: nothing to download when no task is planned, otherwise the report and the disk after the downloads and the log step |
| `Assemblies.Run` | scripts/download_data/download_assemblies.py:30-87 | `main` produces the report and the disk of `Batch` |
| `Assemblies.PlannedNotLog` | scripts/download_data/download_assemblies.py:34-52 | no planned path is the log's path, and no planned path existed beforehand |
| `Assemblies.BatchNothing` | scripts/download_data/download_assemblies.py:44-56 | `main` stops before any download exactly when every identifier's file exists, and then the disk is unchanged |
| `Assemblies.BatchAccounting` | scripts/download_data/download_assemblies.py:76-81 | the reported task count is the number of planned tasks; successes are the results labelled "Success"; successes plus failures equal the task count |
| `Assemblies.BatchFailures` | scripts/download_data/download_assemblies.py:76-78 | a failure line appears for a planned download exactly when its request did not end in a 200 response, and it reads `url: status` |
| `Assemblies.BatchFiles` | scripts/download_data/download_assemblies.py:18-21 | apart from the log, a path exists after a run exactly when it existed before or a planned download to it got 200; a path no download wrote keeps its contents |
| `Assemblies.LoggedOther` | scripts/download_data/download_assemblies.py:83-87 | the log step touches no path but the log's |
| `Assemblies.BatchLastWrite` | scripts/download_data/download_assemblies.py:18-21 | a downloaded file holds the body of the last successful request for its path |
| `Assemblies.BatchLog` | scripts/download_data/download_assemblies.py:83-87 | the log is (over)written with the failure lines exactly when some download failed; otherwise it is left as it was |
| `Assemblies.BatchLogLines` | scripts/download_data/download_assemblies.py:83-87 | read back, the log holds one `\n`-terminated line per failure, given that no exception name holds a line break |
| `Assemblies.PlannedUrlNoNewline` | scripts/download_data/download_assemblies.py:46-47 | no planned URL holds a line break |
| `Assemblies.Rerun` | scripts/download_data/download_assemblies.py:44-52 | running `main` again on the disk a run left plans exactly the first run's tasks whose every request for the same path failed; this rests on the model keeping no file for a failed write (see "## Left out") |
| `Assemblies.RerunAfterSuccess` | scripts/download_data/download_assemblies.py:44-56 | once every planned download has succeeded, a second run downloads nothing and changes nothing, whatever the network does |

## Left out

- Concurrency is left out. The `TCPConnector(limit=...)` bound, the scheduling of tasks and the order in which they complete are not modelled: the tasks run as a sequential fold in submission order. When the same path is planned twice, the file holds the body of the last success in submission order, whereas the real file holds the body of the last write to complete.
- The `limit` parameter and argument parsing are left out: they only set the connection limit.
- Progress bars (`tqdm`) and all `print` output are left out. The messages of `main` are reduced to the `Report` value: nothing to download, or the task count, success count and failure lines.
- `rootutils.find_root`, the `data/pdb/raw/assemblies` location and `mkdir` are left out: the output directory is a parameter. The unused `input_file_path` is not modelled, and neither is the Windows event-loop policy.
- The HTTP clients (`aiohttp`, `requests`), file I/O and JSON parsing are not modelled: their results are the `net` and `server` parameters. A response body that fails to parse as JSON, which would raise in `get_pdb_ids`, is not modelled.
- `PdbIds.Fetch`: the exception paths of `get_pdb_ids` are not modelled. When `requests.post` raises (a connection error, say), the body is not JSON, or `total_count`, `result_set` or an `identifier` key is missing, the exception leaves `get_pdb_ids` and the IDs gathered so far are lost. The `server` oracle always returns an answer, so only the non-200 exit, which keeps the gathered IDs, is modelled.
- File-system errors are only partly modelled. An exception raised while the body is being written is reported as a failure, but the model keeps no partially written file. An input file that cannot be opened is not modelled either.
- Text encoding is not modelled: the input file is already-decoded text, and on writing, `\n` is never translated to a platform line separator.
- `Text.Upper`, `Text.Lower`: map only ASCII letters. Python's `str.upper`/`str.lower` use full Unicode case mapping, which can change a string's length.
- `Text.LowerInjectiveOnUpper`: holds only for the ASCII case mapping of the model. In Python, `"K"` and U+212A KELVIN SIGN are both upper case and both lower-case to `"k"`.
- `Assemblies.TaskForDistinct`: distinct URLs and paths for distinct identifiers hold only under the ASCII case mapping and with paths compared as strings. In Python, `"K"` and U+212A get the same URL and path, and pathlib's `/` makes the identifiers `"A"` and `"./A"` share `output_path/a-assembly1.cif.gz`.
- `Assemblies.Rerun`: `aiofiles.open(path, 'wb')` creates the file before the body is written, so a write that fails after the open leaves a file the next run skips. The model keeps no such file, so the second run plans that download again.
- `PdbIds.Response`: `total_count` is a natural number. A count of exactly -1 would make the loop treat the count as unknown again and take it from the next answer; any other negative count would end the loop after the first page, because `start < total_count` fails. Neither case is modelled.
- The constant search query `SEARCH_REQUEST` (dates, resolution, `rows`, sort order) is not modelled. The service's answer for each offset stands for its answer to that query.
- `scripts/download_data/download_ccd.py`, `main.py` and the tests are not part of this model.
