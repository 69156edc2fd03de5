/**
 * The batch downloader of scripts/download_data/download_assemblies.py.
 *
 * The disk is a map from paths to contents: a path exists when it is a key.
 * The network is an oracle `net`: `net(i)` is what the request of the i-th
 * submitted task ends in. The tasks run as a sequential fold in submission
 * order, which is also the order asyncio.gather returns their results in.
 */
module Assemblies {
  import opened Text
  import opened Wrappers

  newtype byte = x: int | 0 <= x < 256

  type Path = string

  /** What a file holds: the bytes of a downloaded assembly, or text. */
  datatype Contents = Bytes(data: seq<byte>) | Chars(text: string)

  type FileSystem = map<Path, Contents>

  const BaseUrl: string := "https://files.rcsb.org/download/"
  const AssemblySuffix: string := "-assembly1.cif.gz"
  const LogName: string := "download_log.txt"
  const SuccessStatus: string := "Success"

  // ---------------------------------------------------------------------
  // Reading the identifier list

  /** An identifier as the reader produces it: non-empty, upper case, with no
      whitespace at either end. */
  predicate Normalised(id: string) {
    id != [] && !IsSpace(id[0]) && !IsSpace(id[|id| - 1]) && IsUpper(id)
  }

  /** The identifiers of the input lines, in order: each line stripped and
      upper-cased, and a line that strips to nothing dropped. */
  function KeepIds(lines: seq<string>): seq<string> {
    if lines == [] then [] else IdOfLine(lines[0]) + KeepIds(lines[1..])
  }

  /** What one line contributes: its stripped, upper-cased text, or nothing
      when it is blank. */
  function IdOfLine(line: string): seq<string> {
    var s := Strip(line);
    if s == [] then [] else [Upper(s)]
  }

  lemma IdOfLineNormalised(line: string)
    ensures forall i :: 0 <= i < |IdOfLine(line)| ==> Normalised(IdOfLine(line)[i])
  {
    var s := Strip(line);
    if s != [] {
      StripSpec(line);
      UpperKeepsShape(s);
    }
  }

  /** Every identifier read is normalised, and there are no more of them
      than lines. */
  lemma {:induction false} KeepIdsNormalised(lines: seq<string>)
    ensures |KeepIds(lines)| <= |lines|
    ensures forall i :: 0 <= i < |KeepIds(lines)| ==> Normalised(KeepIds(lines)[i])
    decreases |lines|
  {
    if lines != [] {
      var head, rest := IdOfLine(lines[0]), KeepIds(lines[1..]);
      IdOfLineNormalised(lines[0]);
      KeepIdsNormalised(lines[1..]);
      AllOfConcat(head, rest, Normalised);
    }
  }

  /** A property of every element of two sequences holds of every element of
      their concatenation. */
  lemma AllOfConcat<T>(a: seq<T>, b: seq<T>, p: T -> bool)
    requires forall i :: 0 <= i < |a| ==> p(a[i])
    requires forall i :: 0 <= i < |b| ==> p(b[i])
    ensures forall i :: 0 <= i < |a + b| ==> p((a + b)[i])
  {
    forall i | 0 <= i < |a + b| ensures p((a + b)[i]) {
      if i >= |a| {
        assert (a + b)[i] == b[i - |a|];
      }
    }
  }

  /** The identifiers of an input file with the given text. */
  function ReadIds(content: string): seq<string> {
    KeepIds(Lines(Universal(content)))
  }

  /** The reader keeps input order and drops whole lines only: reading two
      runs of lines is reading each and concatenating. */
  lemma {:induction false} KeepIdsConcat(a: seq<string>, b: seq<string>)
    ensures KeepIds(a + b) == KeepIds(a) + KeepIds(b)
    decreases |a|
  {
    if a == [] {
      assert a + b == b;
    } else {
      var c, h := a + b, IdOfLine(a[0]);
      assert c[0] == a[0] && c[1..] == a[1..] + b;
      assert KeepIds(c) == h + KeepIds(a[1..] + b);
      KeepIdsConcat(a[1..], b);
      assert h + (KeepIds(a[1..]) + KeepIds(b)) == (h + KeepIds(a[1..])) + KeepIds(b);
    }
  }


  /** Stripping a line with its newline at most removed from the end never
      leaves a newline inside. */
  lemma StripInsideLine(line: string)
    requires forall k :: 0 <= k < |line| - 1 ==> line[k] != '\n'
    ensures '\n' !in Strip(line)
  {
    var e := StripEnd(line);
    var r := StripStart(e);
    forall k | 0 <= k < |e| ensures e[k] != '\n' {
      assert e[k] == line[k];
      if k == |line| - 1 {
        assert !IsSpace(e[|e| - 1]);
      }
    }
    forall k | 0 <= k < |r| ensures r[k] != '\n' {
      assert r[k] == e[|e| - |r| + k];
    }
  }

  lemma IdOfLineNoNewline(line: string)
    requires forall k :: 0 <= k < |line| - 1 ==> line[k] != '\n'
    ensures forall i :: 0 <= i < |IdOfLine(line)| ==> '\n' !in IdOfLine(line)[i]
  {
    var s := Strip(line);
    StripInsideLine(line);
    UpperKeepsShape(s);
  }

  lemma {:induction false} KeepIdsNoNewline(lines: seq<string>)
    requires forall i, k :: 0 <= i < |lines| && 0 <= k < |lines[i]| - 1 ==> lines[i][k] != '\n'
    ensures forall i :: 0 <= i < |KeepIds(lines)| ==> '\n' !in KeepIds(lines)[i]
    decreases |lines|
  {
    if lines != [] {
      var head, rest := IdOfLine(lines[0]), KeepIds(lines[1..]);
      IdOfLineNoNewline(lines[0]);
      KeepIdsNoNewline(lines[1..]);
      AllOfConcat(head, rest, s => '\n' !in s);
    }
  }

  /** No identifier read from a file holds a line break. */
  lemma ReadIdsNoNewline(content: string)
    ensures forall i :: 0 <= i < |ReadIds(content)| ==> '\n' !in ReadIds(content)[i]
  {
    KeepIdsNoNewline(Lines(Universal(content)));
  }

  /** The identifier file written by get_pdb_ids reads back as the same list,
      provided each identifier is already normalised and has no line break. */
  lemma {:induction false} ReadBackSavedIds(ids: seq<string>)
    requires forall i :: 0 <= i < |ids| ==> Normalised(ids[i]) && '\n' !in ids[i] && '\r' !in ids[i]
    ensures ReadIds(JoinLines(ids)) == ids
  {
    JoinLinesWithoutCR(ids);
    UniversalWithoutCR(JoinLines(ids));
    LinesOfJoin(ids);
    KeepTerminated(ids);
  }

  /** A normalised identifier written as a line reads back as itself. */
  lemma IdOfWrittenLine(id: string)
    requires Normalised(id)
    ensures IdOfLine(id + "\n") == [id]
  {
    StripDropsNewline(id);
    StripOfTrimmed(id);
    IsUpperFixed(id);
  }

  lemma {:induction false} KeepTerminated(ids: seq<string>)
    requires forall i :: 0 <= i < |ids| ==> Normalised(ids[i])
    ensures KeepIds(Terminated(ids)) == ids
    decreases |ids|
  {
    if ids != [] {
      TerminatedCons(ids);
      IdOfWrittenLine(ids[0]);
      KeepTerminated(ids[1..]);
      assert ids == [ids[0]] + ids[1..];
    }
  }

  // ---------------------------------------------------------------------
  // Naming and planning

  /** The file name of an identifier: its lower-case form, then the
      assembly suffix. */
  function FileName(id: string): string {
    Lower(id) + AssemblySuffix
  }

  /** A name inside a directory. */
  function Join(dir: Path, name: string): Path {
    dir + "/" + name
  }

  function LogPath(outDir: Path): Path {
    Join(outDir, LogName)
  }

  /** A download to run: where from, where to. */
  datatype Task = Task(url: string, path: Path)

  function TaskFor(id: string, outDir: Path): Task {
    Task(BaseUrl + FileName(id), Join(outDir, FileName(id)))
  }

  /** Normalised identifiers never share a URL or a path, and no assembly
      path is the failure log's path. */
  lemma TaskForDistinct(a: string, b: string, outDir: Path)
    ensures IsUpper(a) && IsUpper(b) && a != b ==>
      TaskFor(a, outDir).url != TaskFor(b, outDir).url && TaskFor(a, outDir).path != TaskFor(b, outDir).path
    ensures TaskFor(a, outDir).path != LogPath(outDir)
  {
    var na, nb := FileName(a), FileName(b);
    if IsUpper(a) && IsUpper(b) && a != b {
      if na == nb {
        assert Lower(a) == na[..|a|] && Lower(b) == nb[..|b|];
        LowerInjectiveOnUpper(a, b);
      }
      assert (BaseUrl + na)[|BaseUrl|..] == na && (BaseUrl + nb)[|BaseUrl|..] == nb;
      assert Join(outDir, na)[|outDir| + 1..] == na && Join(outDir, nb)[|outDir| + 1..] == nb;
    }
  }

  /** The tasks of the planning loop: one per identifier whose file is not
      among the existing paths, in input order. */
  function Plan(ids: seq<string>, outDir: Path, existing: set<Path>): seq<Task> {
    if ids == [] then [] else TaskIfMissing(ids[0], outDir, existing) + Plan(ids[1..], outDir, existing)
  }

  /** What one identifier contributes: its task, unless its file exists. */
  function TaskIfMissing(id: string, outDir: Path, existing: set<Path>): seq<Task> {
    var t := TaskFor(id, outDir);
    if t.path in existing then [] else [t]
  }

  /** A task is planned exactly when some identifier gives it and its file
      does not exist. */
  lemma {:induction false} PlanMembers(ids: seq<string>, outDir: Path, existing: set<Path>, t: Task)
    ensures t in Plan(ids, outDir, existing) <==>
      t.path !in existing && exists i :: 0 <= i < |ids| && TaskFor(ids[i], outDir) == t
    decreases |ids|
  {
    if ids != [] {
      PlanMembers(ids[1..], outDir, existing, t);
      if exists i :: 0 <= i < |ids| && TaskFor(ids[i], outDir) == t {
        var i :| 0 <= i < |ids| && TaskFor(ids[i], outDir) == t;
        if i > 0 {
          assert TaskFor(ids[1..][i - 1], outDir) == t;
        }
      }
      if exists i :: 0 <= i < |ids| - 1 && TaskFor(ids[1..][i], outDir) == t {
        var i :| 0 <= i < |ids| - 1 && TaskFor(ids[1..][i], outDir) == t;
        assert TaskFor(ids[i + 1], outDir) == t;
      }
    }
  }

  /** Planning keeps input order and does not de-duplicate: planning two runs
      of identifiers is planning each and concatenating. */
  lemma {:induction false} PlanConcat(a: seq<string>, b: seq<string>, outDir: Path, existing: set<Path>)
    ensures Plan(a + b, outDir, existing) == Plan(a, outDir, existing) + Plan(b, outDir, existing)
    decreases |a|
  {
    if a == [] {
      assert a + b == b;
    } else {
      var c, h := a + b, TaskIfMissing(a[0], outDir, existing);
      assert c[0] == a[0] && c[1..] == a[1..] + b;
      assert Plan(c, outDir, existing) == h + Plan(a[1..] + b, outDir, existing);
      PlanConcat(a[1..], b, outDir, existing);
      assert h + (Plan(a[1..], outDir, existing) + Plan(b, outDir, existing))
        == (h + Plan(a[1..], outDir, existing)) + Plan(b, outDir, existing);
    }
  }

  /** Nothing is planned exactly when every identifier's file exists. */
  lemma {:induction false} PlanEmpty(ids: seq<string>, outDir: Path, existing: set<Path>)
    ensures Plan(ids, outDir, existing) == [] <==>
      forall i :: 0 <= i < |ids| ==> TaskFor(ids[i], outDir).path in existing
    decreases |ids|
  {
    if ids != [] {
      PlanEmpty(ids[1..], outDir, existing);
      if forall i :: 0 <= i < |ids| - 1 ==> TaskFor(ids[1..][i], outDir).path in existing {
        forall i | 1 <= i < |ids| ensures TaskFor(ids[i], outDir).path in existing {
          assert ids[i] == ids[1..][i - 1];
        }
      }
    }
  }

  /** Planning the first i + 1 identifiers: the plan of the first i, then
      the task of identifier i unless its file exists. */
  lemma PlanSnoc(ids: seq<string>, i: nat, outDir: Path, existing: set<Path>)
    requires i < |ids|
    ensures Plan(ids[..i + 1], outDir, existing) == Plan(ids[..i], outDir, existing) + TaskIfMissing(ids[i], outDir, existing)
  {
    assert ids[..i + 1] == ids[..i] + [ids[i]];
    PlanConcat(ids[..i], [ids[i]], outDir, existing);
  }

  /** The planning loop of main. */
  method PlanDownloads(ids: seq<string>, outDir: Path, existing: set<Path>) returns (tasksToRun: seq<Task>)
    ensures tasksToRun == Plan(ids, outDir, existing)
  {
    tasksToRun := [];
    for i := 0 to |ids|
      invariant tasksToRun == Plan(ids[..i], outDir, existing)
    {
      PlanSnoc(ids, i, outDir, existing);
      var fileName := Lower(ids[i]) + AssemblySuffix;
      var url := BaseUrl + fileName;
      var filePath := Join(outDir, fileName);
      if filePath !in existing {
        tasksToRun := tasksToRun + [Task(url, filePath)];
      }
    }
    assert ids[..|ids|] == ids;
  }

  // ---------------------------------------------------------------------
  // One download

  /** How a request ends: a response with its status and body, the five
      minute timeout, or another exception, by its type name. */
  datatype Outcome = Http(status: int, body: seq<byte>) | Timeout | Raised(name: string)

  predicate Succeeded(o: Outcome) {
    o.Http? && o.status == 200
  }

  /** The status string download_file returns for an outcome: "Success" for
      a 200 response and for nothing else; every other outcome gets a
      "Failed (...)" string naming the HTTP status or the exception. */
  function Label(o: Outcome): (l: string)
    ensures l == SuccessStatus <==> Succeeded(o)
    ensures !Succeeded(o) ==> |l| > 8 && l[..8] == "Failed (" && l[|l| - 1] == ')'
  {
    match o
    case Http(status, _) =>
      if status == 200 then SuccessStatus else "Failed (HTTP " + IntToString(status) + ")"
    case Timeout => "Failed (TimeoutError)"
    case Raised(name) => "Failed (" + name + ")"
  }

  /** The disk after a download: the body is written only on status 200. */
  function Store(fs: FileSystem, path: Path, o: Outcome): FileSystem {
    if Succeeded(o) then fs[path := Bytes(o.body)] else fs
  }

  datatype Result = Result(url: string, status: string)

  /** One download: the request's outcome classified, and the body stored. */
  method DownloadFile(o: Outcome, url: string, path: Path, fs: FileSystem) returns (result: Result, files: FileSystem)
    ensures result.url == url
    ensures result.status == SuccessStatus <==> Succeeded(o)
    ensures result.status == Label(o)
    ensures files == Store(fs, path, o)
  {
    match o
    case Http(status, body) =>
      if status == 200 {
        files := fs[path := Bytes(body)];
        result := Result(url, SuccessStatus);
      } else {
        files := fs;
        result := Result(url, "Failed (HTTP " + IntToString(status) + ")");
      }
    case Timeout =>
      files := fs;
      result := Result(url, "Failed (TimeoutError)");
    case Raised(name) =>
      files := fs;
      result := Result(url, "Failed (" + name + ")");
  }

  /** Different HTTP error statuses get different labels. */
  lemma LabelHttpDistinct(a: int, b: int, x: seq<byte>, y: seq<byte>)
    requires a != 200 && b != 200
    requires Label(Http(a, x)) == Label(Http(b, y))
    ensures a == b
  {
    var p := "Failed (HTTP ";
    var la, lb := Label(Http(a, x)), Label(Http(b, y));
    assert IntToString(a) == la[|p|..|la| - 1];
    assert IntToString(b) == lb[|p|..|lb| - 1];
    IntToStringInjective(a, b);
  }

  /** A label holds a line break only when the exception's name does. */
  lemma LabelNoNewline(o: Outcome)
    requires o.Raised? ==> '\n' !in o.name
    ensures '\n' !in Label(o)
  {
    if o.Http? && o.status != 200 {
      var s := IntToString(o.status);
      assert forall k :: 0 <= k < |s| ==> s[k] == '-' || IsDigit(s[k]);
    }
  }

  // ---------------------------------------------------------------------
  // The batch

  /** The results asyncio.gather returns, in submission order. */
  function Results(tasks: seq<Task>, net: nat -> Outcome): (rs: seq<Result>)
    ensures |rs| == |tasks|
    ensures forall i :: 0 <= i < |tasks| ==> rs[i] == Result(tasks[i].url, Label(net(i)))
    ensures forall i :: 0 <= i < |rs| ==> (rs[i].status == SuccessStatus <==> Succeeded(net(i)))
  {
    seq(|tasks|, i requires 0 <= i < |tasks| => Result(tasks[i].url, Label(net(i))))
  }

  /** The results of the first i + 1 tasks: those of the first i, then the
      result of task i. */
  lemma ResultsSnoc(tasks: seq<Task>, i: nat, net: nat -> Outcome)
    requires i < |tasks|
    ensures Results(tasks[..i + 1], net) == Results(tasks[..i], net) + [Result(tasks[i].url, Label(net(i)))]
  {
  }

  /** The disk after the first n tasks have run. */
  function Written(fs: FileSystem, tasks: seq<Task>, net: nat -> Outcome, n: nat): FileSystem
    requires n <= |tasks|
  {
    if n == 0 then fs else Store(Written(fs, tasks, net, n - 1), tasks[n - 1].path, net(n - 1))
  }

  /** A path exists after the first n tasks exactly when it existed before or
      one of them wrote it; a path none of them wrote keeps its contents. */
  lemma {:induction false} WrittenPaths(fs: FileSystem, tasks: seq<Task>, net: nat -> Outcome, n: nat, p: Path)
    requires n <= |tasks|
    ensures p in Written(fs, tasks, net, n) <==>
      p in fs || exists i :: 0 <= i < n && tasks[i].path == p && Succeeded(net(i))
    ensures (forall i :: 0 <= i < n && tasks[i].path == p ==> !Succeeded(net(i))) ==>
      p in fs ==> Written(fs, tasks, net, n)[p] == fs[p]
    decreases n
  {
    if n > 0 {
      WrittenPaths(fs, tasks, net, n - 1, p);
    }
  }

  /** A written path holds the body of the last task that wrote it. */
  lemma {:induction false} WrittenLast(fs: FileSystem, tasks: seq<Task>, net: nat -> Outcome, n: nat, i: nat)
    requires i < n <= |tasks| && Succeeded(net(i))
    requires forall j :: i < j < n && tasks[j].path == tasks[i].path ==> !Succeeded(net(j))
    ensures tasks[i].path in Written(fs, tasks, net, n)
    ensures Written(fs, tasks, net, n)[tasks[i].path] == Bytes(net(i).body)
    decreases n
  {
    if n - 1 > i {
      WrittenLast(fs, tasks, net, n - 1, i);
    }
  }

  /** The failure lines of the results, in result order: the URL, a colon
      and the status, for each result whose status is not "Success". */
  function FailureLines(results: seq<Result>): seq<string> {
    if results == [] then [] else FailureOf(results[0]) + FailureLines(results[1..])
  }

  /** What one result contributes: its failure line, or nothing on success. */
  function FailureOf(r: Result): seq<string> {
    if r.status != SuccessStatus then [r.url + ": " + r.status] else []
  }

  function SuccessCount(results: seq<Result>): nat {
    if results == [] then 0
    else (if results[0].status == SuccessStatus then 1 else 0) + SuccessCount(results[1..])
  }

  /** Every result is either a success or a failure line, never both. */
  lemma {:induction false} Accounting(results: seq<Result>)
    ensures SuccessCount(results) + |FailureLines(results)| == |results|
    decreases |results|
  {
    if results != [] {
      Accounting(results[1..]);
    }
  }

  /** Failure lines follow result order. */
  lemma {:induction false} FailureLinesConcat(a: seq<Result>, b: seq<Result>)
    ensures FailureLines(a + b) == FailureLines(a) + FailureLines(b)
    decreases |a|
  {
    if a == [] {
      assert a + b == b;
    } else {
      var c, h := a + b, FailureOf(a[0]);
      assert c[0] == a[0] && c[1..] == a[1..] + b;
      assert FailureLines(c) == h + FailureLines(a[1..] + b);
      FailureLinesConcat(a[1..], b);
      assert h + (FailureLines(a[1..]) + FailureLines(b)) == (h + FailureLines(a[1..])) + FailureLines(b);
    }
  }

  /** A failure line holds no line break when neither its URL nor its status does. */
  lemma {:induction false} FailureLinesNoNewline(results: seq<Result>)
    requires forall i :: 0 <= i < |results| ==> '\n' !in results[i].url && '\n' !in results[i].status
    ensures forall i :: 0 <= i < |FailureLines(results)| ==> '\n' !in FailureLines(results)[i]
    decreases |results|
  {
    if results != [] {
      FailureLinesNoNewline(results[1..]);
    }
  }

  /** The failure lines of the first i + 1 results: those of the first i,
      then that of result i. */
  lemma FailureLinesSnoc(results: seq<Result>, i: nat)
    requires i < |results|
    ensures FailureLines(results[..i + 1]) == FailureLines(results[..i]) + FailureOf(results[i])
  {
    assert results[..i + 1] == results[..i] + [results[i]];
    FailureLinesConcat(results[..i], [results[i]]);
  }

  /** The loop of main that collects the failure lines. */
  method CollectFailures(results: seq<Result>) returns (failedDownloads: seq<string>)
    ensures failedDownloads == FailureLines(results)
  {
    failedDownloads := [];
    for i := 0 to |results|
      invariant failedDownloads == FailureLines(results[..i])
    {
      FailureLinesSnoc(results, i);
      var r := results[i];
      if r.status != SuccessStatus {
        failedDownloads := failedDownloads + [r.url + ": " + r.status];
      }
    }
    assert results[..|results|] == results;
  }

  /** What main reports: nothing to download, or the number of tasks, the
      success count and the failure lines. */
  datatype Report = NothingToDownload | Finished(tasks: nat, succeeded: int, failures: seq<string>)

  /** The downloads main plans for an input file and a disk. */
  function Planned(input: string, outDir: Path, fs: FileSystem): seq<Task> {
    Plan(ReadIds(input), outDir, fs.Keys)
  }

  /** What a run of main produces, as a function of its inputs. */
  function Batch(input: string, outDir: Path, fs: FileSystem, net: nat -> Outcome): (Report, FileSystem) {
    var tasks := Planned(input, outDir, fs);
    if tasks == [] then (NothingToDownload, fs) else Download(tasks, outDir, fs, net)
  }

  /** Running the planned tasks: the report, and the disk with every
      successful download written and the failure log written when some
      failed. */
  function Download(tasks: seq<Task>, outDir: Path, fs: FileSystem, net: nat -> Outcome): (Report, FileSystem) {
    var failed := FailureLines(Results(tasks, net));
    (Finished(|tasks|, |tasks| - |failed|, failed), Logged(Written(fs, tasks, net, |tasks|), outDir, failed))
  }

  /** The disk after the failure log step: untouched when nothing failed. */
  function Logged(files: FileSystem, outDir: Path, failed: seq<string>): FileSystem {
    if failed == [] then files else files[LogPath(outDir) := Chars(JoinLines(failed))]
  }

  /** The tasks created for the planned downloads and gathered: their
      results in submission order, and the disk they leave. */
  method GatherDownloads(tasksToRun: seq<Task>, fs: FileSystem, net: nat -> Outcome) returns (results: seq<Result>, files: FileSystem)
    ensures results == Results(tasksToRun, net)
    ensures files == Written(fs, tasksToRun, net, |tasksToRun|)
  {
    files := fs;
    results := [];
    for i := 0 to |tasksToRun|
      invariant results == Results(tasksToRun[..i], net)
      invariant files == Written(fs, tasksToRun, net, i)
    {
      ResultsSnoc(tasksToRun, i, net);
      var result;
      result, files := DownloadFile(net(i), tasksToRun[i].url, tasksToRun[i].path, files);
      results := results + [result];
    }
    assert tasksToRun[..|tasksToRun|] == tasksToRun;
  }

  /** The log step of main: when some download failed, the log file is
      (over)written with one line per failure. */
  method SaveFailureLog(files: FileSystem, outDir: Path, failedDownloads: seq<string>) returns (after: FileSystem)
    ensures after == Logged(files, outDir, failedDownloads)
  {
    after := files;
    if failedDownloads != [] {
      var log := WriteLines(failedDownloads);
      after := after[LogPath(outDir) := Chars(log)];
    }
  }

  /** The whole of main, given the input file's text. */
  method Run(input: string, outDir: Path, fs: FileSystem, net: nat -> Outcome) returns (report: Report, files: FileSystem)
    ensures report == Batch(input, outDir, fs, net).0
    ensures files == Batch(input, outDir, fs, net).1
  {
    var pdbIds := ReadIds(input);
    var tasksToRun := PlanDownloads(pdbIds, outDir, fs.Keys);
    if tasksToRun == [] {
      return NothingToDownload, fs;
    }
    var results;
    results, files := GatherDownloads(tasksToRun, fs, net);
    var failedDownloads := CollectFailures(results);
    var successCount := |tasksToRun| - |failedDownloads|;
    files := SaveFailureLog(files, outDir, failedDownloads);
    report := Finished(|tasksToRun|, successCount, failedDownloads);
  }

  // ---------------------------------------------------------------------
  // What a run promises

  /** Every planned path is an assembly file, never the failure log. */
  lemma PlannedNotLog(input: string, outDir: Path, fs: FileSystem, i: nat)
    requires i < |Planned(input, outDir, fs)|
    ensures Planned(input, outDir, fs)[i].path != LogPath(outDir)
    ensures Planned(input, outDir, fs)[i].path !in fs
  {
    var ids, tasks := ReadIds(input), Planned(input, outDir, fs);
    PlanMembers(ids, outDir, fs.Keys, tasks[i]);
    var k :| 0 <= k < |ids| && TaskFor(ids[k], outDir) == tasks[i];
    TaskForDistinct(ids[k], ids[k], outDir);
  }

  /** main stops before any download exactly when the file of every
      identifier already exists, and then nothing on disk changes. */
  lemma BatchNothing(input: string, outDir: Path, fs: FileSystem, net: nat -> Outcome)
    ensures var ids := ReadIds(input);
      Batch(input, outDir, fs, net).0 == NothingToDownload <==>
        forall i :: 0 <= i < |ids| ==> TaskFor(ids[i], outDir).path in fs
    ensures Batch(input, outDir, fs, net).0 == NothingToDownload ==> Batch(input, outDir, fs, net).1 == fs
  {
    PlanEmpty(ReadIds(input), outDir, fs.Keys);
  }

  /** The report counts every planned download once: the successes are the
      results labelled "Success", and successes and failure lines add up to
      the number of tasks. */
  lemma BatchAccounting(input: string, outDir: Path, fs: FileSystem, net: nat -> Outcome)
    ensures var report, tasks := Batch(input, outDir, fs, net).0, Planned(input, outDir, fs);
      report.Finished? ==>
        && report.tasks == |tasks| > 0
        && report.succeeded == SuccessCount(Results(tasks, net))
        && 0 <= report.succeeded <= report.tasks
        && report.succeeded + |report.failures| == report.tasks
  {
    Accounting(Results(Planned(input, outDir, fs), net));
  }

  /** The failure lines are exactly the `url: status` lines of the results
      that are not "Success". */
  lemma {:induction false} FailureLinesMembers(results: seq<Result>, x: string)
    ensures x in FailureLines(results) <==>
      exists i :: 0 <= i < |results| && results[i].status != SuccessStatus && x == results[i].url + ": " + results[i].status
    decreases |results|
  {
    if results != [] {
      FailureLinesMembers(results[1..], x);
      assert FailureLines(results) == FailureOf(results[0]) + FailureLines(results[1..]);
      if exists i :: 0 <= i < |results| && results[i].status != SuccessStatus && x == results[i].url + ": " + results[i].status {
        var i :| 0 <= i < |results| && results[i].status != SuccessStatus && x == results[i].url + ": " + results[i].status;
        if i > 0 {
          assert results[1..][i - 1] == results[i];
        }
      }
      if exists i :: 0 <= i < |results| - 1 && results[1..][i].status != SuccessStatus && x == results[1..][i].url + ": " + results[1..][i].status {
        var i :| 0 <= i < |results| - 1 && results[1..][i].status != SuccessStatus && x == results[1..][i].url + ": " + results[1..][i].status;
        assert results[1..][i] == results[i + 1];
      }
    }
  }

  /** A failure line is reported for a planned download exactly when its
      request did not end in a 200 response. */
  lemma BatchFailures(input: string, outDir: Path, fs: FileSystem, net: nat -> Outcome, x: string)
    ensures var report, tasks := Batch(input, outDir, fs, net).0, Planned(input, outDir, fs);
      report.Finished? ==>
        (x in report.failures <==>
          exists i :: 0 <= i < |tasks| && !Succeeded(net(i)) && x == tasks[i].url + ": " + Label(net(i)))
  {
    var tasks := Planned(input, outDir, fs);
    var results := Results(tasks, net);
    FailureLinesMembers(results, x);
  }

  /** Apart from the failure log, a path exists after a run exactly when it
      existed before or a planned download to it got a 200 response, and a
      path no successful download wrote keeps its contents. */
  lemma BatchFiles(input: string, outDir: Path, fs: FileSystem, net: nat -> Outcome, p: Path)
    requires p != LogPath(outDir)
    ensures var files, tasks := Batch(input, outDir, fs, net).1, Planned(input, outDir, fs);
      && (p in files <==> p in fs || exists i :: 0 <= i < |tasks| && tasks[i].path == p && Succeeded(net(i)))
      && ((forall i :: 0 <= i < |tasks| && tasks[i].path == p ==> !Succeeded(net(i))) ==>
            p in fs ==> files[p] == fs[p])
  {
    var tasks := Planned(input, outDir, fs);
    WrittenPaths(fs, tasks, net, |tasks|, p);
    if tasks != [] {
      var failed := FailureLines(Results(tasks, net));
      LoggedOther(Written(fs, tasks, net, |tasks|), outDir, failed, p);
    }
  }

  /** The log step touches no other path. */
  lemma LoggedOther(files: FileSystem, outDir: Path, failed: seq<string>, p: Path)
    requires p != LogPath(outDir)
    ensures p in Logged(files, outDir, failed) <==> p in files
    ensures p in files ==> Logged(files, outDir, failed)[p] == files[p]
  {
  }

  /** A downloaded file holds the body of the last successful request for
      its path. */
  lemma BatchLastWrite(input: string, outDir: Path, fs: FileSystem, net: nat -> Outcome, i: nat)
    requires i < |Planned(input, outDir, fs)| && Succeeded(net(i))
    requires forall j :: i < j < |Planned(input, outDir, fs)| && Planned(input, outDir, fs)[j].path == Planned(input, outDir, fs)[i].path ==> !Succeeded(net(j))
    ensures var files, tasks := Batch(input, outDir, fs, net).1, Planned(input, outDir, fs);
      tasks[i].path in files && files[tasks[i].path] == Bytes(net(i).body)
  {
    var tasks := Planned(input, outDir, fs);
    PlannedNotLog(input, outDir, fs, i);
    WrittenLast(fs, tasks, net, |tasks|, i);
    LoggedOther(Written(fs, tasks, net, |tasks|), outDir, FailureLines(Results(tasks, net)), tasks[i].path);
  }

  /** The failure log is written exactly when some download failed, with one
      line per failure; otherwise it is left as it was, so a log from an
      earlier run survives a run without failures. */
  lemma BatchLog(input: string, outDir: Path, fs: FileSystem, net: nat -> Outcome)
    ensures var (report, files) := Batch(input, outDir, fs, net);
      && (report.Finished? && report.failures != [] ==>
            LogPath(outDir) in files && files[LogPath(outDir)] == Chars(JoinLines(report.failures)))
      && (report.NothingToDownload? || report.failures == [] ==>
            (LogPath(outDir) in files <==> LogPath(outDir) in fs)
            && (LogPath(outDir) in fs ==> files[LogPath(outDir)] == fs[LogPath(outDir)]))
  {
    var tasks := Planned(input, outDir, fs);
    forall i | 0 <= i < |tasks| ensures tasks[i].path != LogPath(outDir) {
      PlannedNotLog(input, outDir, fs, i);
    }
    WrittenPaths(fs, tasks, net, |tasks|, LogPath(outDir));
  }

  /** Read back, the log holds one newline-terminated line per failure,
      provided no exception type name holds a line break. */
  lemma BatchLogLines(input: string, outDir: Path, fs: FileSystem, net: nat -> Outcome)
    requires forall i :: net(i).Raised? ==> '\n' !in net(i).name
    ensures var (report, files) := Batch(input, outDir, fs, net);
      report.Finished? && report.failures != [] ==>
        LogPath(outDir) in files && files[LogPath(outDir)].Chars?
        && Lines(files[LogPath(outDir)].text) == Terminated(report.failures)
  {
    var tasks := Planned(input, outDir, fs);
    var results := Results(tasks, net);
    forall i | 0 <= i < |results| ensures '\n' !in results[i].url && '\n' !in results[i].status {
      PlannedUrlNoNewline(input, outDir, fs, i);
      LabelNoNewline(net(i));
    }
    FailureLinesNoNewline(results);
    BatchLog(input, outDir, fs, net);
    LinesOfJoin(FailureLines(results));
  }

  /** No planned URL holds a line break. */
  lemma PlannedUrlNoNewline(input: string, outDir: Path, fs: FileSystem, i: nat)
    requires i < |Planned(input, outDir, fs)|
    ensures '\n' !in Planned(input, outDir, fs)[i].url
  {
    var ids, t := ReadIds(input), Planned(input, outDir, fs)[i];
    ReadIdsNoNewline(input);
    PlanMembers(ids, outDir, fs.Keys, t);
    var k :| 0 <= k < |ids| && TaskFor(ids[k], outDir) == t;
    LowerKeepsNewline(ids[k]);
    ConstantsNoNewline();
    NoNewlineConcat(BaseUrl, Lower(ids[k]));
    NoNewlineConcat(BaseUrl + Lower(ids[k]), AssemblySuffix);
  }

  lemma NoNewlineConcat(a: string, b: string)
    requires '\n' !in a && '\n' !in b
    ensures '\n' !in a + b
  {
  }

  lemma ConstantsNoNewline()
    ensures '\n' !in BaseUrl && '\n' !in AssemblySuffix
  {
  }

  /** Running main again on the disk a run left plans exactly the downloads
      of the first run whose every request for the same path failed. */
  lemma Rerun(input: string, outDir: Path, fs: FileSystem, net: nat -> Outcome, t: Task)
    ensures var first, tasks := Batch(input, outDir, fs, net).1, Planned(input, outDir, fs);
      t in Planned(input, outDir, first) <==>
        t in tasks && forall i :: 0 <= i < |tasks| && tasks[i].path == t.path ==> !Succeeded(net(i))
  {
    var ids, first, tasks := ReadIds(input), Batch(input, outDir, fs, net).1, Planned(input, outDir, fs);
    PlanMembers(ids, outDir, first.Keys, t);
    PlanMembers(ids, outDir, fs.Keys, t);
    if exists k :: 0 <= k < |ids| && TaskFor(ids[k], outDir) == t {
      var k :| 0 <= k < |ids| && TaskFor(ids[k], outDir) == t;
      TaskForDistinct(ids[k], ids[k], outDir);
      BatchFiles(input, outDir, fs, net, t.path);
    }
  }

  /** Once every planned download has succeeded, running main again on the
      disk the run left downloads nothing, whatever the network does. */
  lemma RerunAfterSuccess(input: string, outDir: Path, fs: FileSystem, net: nat -> Outcome, again: nat -> Outcome)
    requires forall i :: 0 <= i < |Planned(input, outDir, fs)| ==> Succeeded(net(i))
    ensures var first := Batch(input, outDir, fs, net).1;
      Batch(input, outDir, first, again).0 == NothingToDownload && Batch(input, outDir, first, again).1 == first
  {
    var ids, first, tasks := ReadIds(input), Batch(input, outDir, fs, net).1, Planned(input, outDir, fs);
    forall i | 0 <= i < |ids| ensures TaskFor(ids[i], outDir).path in first {
      var t := TaskFor(ids[i], outDir);
      TaskForDistinct(ids[i], ids[i], outDir);
      BatchFiles(input, outDir, fs, net, t.path);
      if t.path !in fs {
        PlanMembers(ids, outDir, fs.Keys, t);
        var k :| 0 <= k < |tasks| && tasks[k] == t;
        assert tasks[k].path == t.path && Succeeded(net(k));
      }
    }
    BatchNothing(input, outDir, first, again);
  }
}
