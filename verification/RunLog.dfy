/**
  The benchmark run log: a producer that writes one file per result and may fail or crash at any
  step, and the loader that must accept only complete runs.

  A file is published by writing a temporary sibling and renaming it. Each step on the disk takes
  the next entry of an arbitrary list of faults: it may fail without effect, fail after its effect,
  or be the point where the process dies, after which nothing happens any more.
*/
module RunLog {
  import opened Common
  import opened Ordering

  datatype Status = Running | Completed | Aborted

  datatype Run = Run(runId: string, datasetTasks: seq<string>, selected: seq<string>, models: seq<string>)

  datatype BenchmarkResult = BenchmarkResult(resultId: string, runId: string, taskId: string, modelId: string,
                                             payload: string)

  /** What a file holds: a document, or part of one. */
  datatype Content = Partial | ManifestDoc(run: Run) | StatusDoc(status: Status) | ResultDoc(result: BenchmarkResult)

  datatype File = InRoot(name: string) | InResults(name: string)

  type Files = map<File, Content>

  const MANIFEST := InRoot("manifest.json")
  const STATUS := InRoot("status.json")

  predicate EndsWith(s: string, suffix: string) {
    |suffix| <= |s| && s[|s| - |suffix|..] == suffix
  }

  function ResultFile(resultId: string): File {
    InResults(resultId + ".json")
  }

  /** The temporary sibling of a file. */
  function TemporaryOf(file: File, nonce: string): File {
    file.(name := file.name + "." + nonce + ".tmp")
  }

  predicate Temporary(file: File) {
    EndsWith(file.name, ".tmp")
  }

  /** The files that are not temporary. */
  function Visible(files: Files): Files {
    map f | f in files && !Temporary(f) :: files[f]
  }

  lemma TemporaryNames(file: File, nonce: string, resultId: string)
    ensures Temporary(TemporaryOf(file, nonce))
    ensures !Temporary(MANIFEST) && !Temporary(STATUS) && !Temporary(ResultFile(resultId))
    ensures EndsWith(ResultFile(resultId).name, ".json")
  {
    var name := file.name + "." + nonce + ".tmp";
    assert name[|name| - 4..] == ".tmp";
    var json := resultId + ".json";
    assert json[|json| - 5..] == ".json";
    assert json[|json| - 4..] == "json";
  }

  // ---------- The loader ----------

  datatype LoadError =
    | NotFound | Malformed | WrongRun | NotCompleted | ResultMalformed | NoResults | DuplicateResultIds
    | InvalidTasks | InvalidModels | WrongPairs | ForeignResult

  type Results = map<string, BenchmarkResult>

  /** What the directory listing of `*.json` results yields. */
  function ResultNames(files: Files): set<string> {
    set f | f in files && f.InResults? && EndsWith(f.name, ".json") :: f.name
  }

  function ResultsIn(files: Files): Results {
    map n | n in ResultNames(files) && files[InResults(n)].ResultDoc? :: files[InResults(n)].result
  }

  function Elements<T>(s: seq<T>): set<T> {
    set x | x in s
  }

  function PairOf(result: BenchmarkResult): (string, string) {
    (result.taskId, result.modelId)
  }

  function PairsOf(results: Results): set<(string, string)> {
    set n | n in results :: PairOf(results[n])
  }

  function Product(tasks: seq<string>, models: seq<string>): set<(string, string)> {
    set t, m | t in tasks && m in models :: (t, m)
  }

  ghost predicate IdsUnique(results: Results) {
    forall a, b :: a in results && b in results && results[a].resultId == results[b].resultId ==> a == b
  }

  ghost predicate PairsUnique(results: Results) {
    forall a, b :: a in results && b in results && PairOf(results[a]) == PairOf(results[b]) ==> a == b
  }

  function Read(files: Files, file: File): Option<Content> {
    if file in files then Some(files[file]) else None
  }

  ghost predicate AllDocuments(files: Files) {
    forall n :: n in ResultNames(files) ==> files[InResults(n)].ResultDoc?
  }

  /** The loader's checks in their order, on what it has read. */
  ghost function Accept(manifest: Option<Content>, status: Option<Content>, documents: bool, results: Results,
                        runId: string)
    : Result<(Run, Results), LoadError>
  {
    if manifest.None? then Err(NotFound)
    else if !manifest.value.ManifestDoc? then Err(Malformed)
    else if status.None? then Err(NotFound)
    else if !status.value.StatusDoc? then Err(Malformed)
    else
      var run := manifest.value.run;
      if run.runId != runId then Err(WrongRun)
      else if status.value.status != Completed then Err(NotCompleted)
      else if !documents then Err(ResultMalformed)
      else if results == map[] then Err(NoResults)
      else if !IdsUnique(results) then Err(DuplicateResultIds)
      else if run.selected == [] || !Distinct(run.selected) || !(Elements(run.selected) <= Elements(run.datasetTasks))
      then Err(InvalidTasks)
      else if run.models == [] || !Distinct(run.models) then Err(InvalidModels)
      else if !PairsUnique(results) || PairsOf(results) != Product(run.selected, run.models) then Err(WrongPairs)
      else if exists n :: n in results && results[n].runId != runId then Err(ForeignResult)
      else Ok((run, results))
  }

  ghost function Load(files: Files, runId: string): Result<(Run, Results), LoadError> {
    Accept(Read(files, MANIFEST), Read(files, STATUS), AllDocuments(files), ResultsIn(files), runId)
  }

  lemma SameListing(files: Files)
    ensures ResultNames(files) == ResultNames(Visible(files))
    ensures ResultsIn(files) == ResultsIn(Visible(files))
    ensures AllDocuments(files) == AllDocuments(Visible(files))
  {
    forall f | f in files && f.InResults? && EndsWith(f.name, ".json")
      ensures f in Visible(files)
    {
      JsonIsNotTemporary(f.name);
    }
    assert ResultNames(files) == ResultNames(Visible(files));
    forall n | n in ResultNames(files)
      ensures InResults(n) in Visible(files) && Visible(files)[InResults(n)] == files[InResults(n)]
    {
    }
  }

  /** Leftover temporary files are never read. */
  lemma LoadIgnoresTemporaries(files: Files, runId: string)
    ensures Load(files, runId) == Load(Visible(files), runId)
  {
    SameListing(files);
    TemporaryNames(MANIFEST, "", "");
    assert Read(files, MANIFEST) == Read(Visible(files), MANIFEST)
        && Read(files, STATUS) == Read(Visible(files), STATUS);
  }

  lemma JsonIsNotTemporary(name: string)
    requires EndsWith(name, ".json")
    ensures !EndsWith(name, ".tmp")
  {
    assert name[|name| - 5..][4] == 'n';
    assert |name| >= 4 ==> name[|name| - 4..][3] == name[|name| - 1];
  }

  // ---------- The disk ----------

  datatype Fault = Fine | Fails | FailsAfter | Dies

  class Disk {
    var files: Files
    var directory: bool
    var alive: bool
    var faults: seq<Fault>

    constructor (faults: seq<Fault>)
      ensures files == map[] && !directory && alive && this.faults == faults
    {
      files, directory, alive, this.faults := map[], false, true, faults;
    }

    /** The process lives, no fault is left and no temporary file is around. */
    ghost predicate Calm()
      reads this
    {
      alive && faults == [] && forall f :: f in files ==> !Temporary(f)
    }

    /** Whether the next step takes effect: it may do so and still report a failure. */
    ghost predicate Effective()
      reads this
    {
      alive && (faults == [] || faults[0] == Fine || faults[0] == FailsAfter)
    }

    /** The fate of the next step: whether it takes effect and whether it reports success; a death is for good. */
    method Next() returns (happens: bool, ok: bool)
      modifies this`faults, this`alive
      ensures happens <==> old(Effective())
      ensures ok <==> old(alive) && (old(faults) == [] || old(faults)[0] == Fine)
      ensures alive <==> old(alive) && (old(faults) == [] || old(faults)[0] != Dies)
      ensures faults == if old(alive) && old(faults) != [] then old(faults)[1..] else old(faults)
    {
      happens, ok := false, false;
      if alive {
        var fault := if faults == [] then Fine else faults[0];
        faults := if faults == [] then [] else faults[1..];
        match fault
        case Fine => happens, ok := true, true;
        case Fails =>
        case FailsAfter => happens := true;
        case Dies => alive := false;
      }
    }

    method Put(file: File, content: Content) returns (ok: bool)
      modifies this
      ensures files == if old(Effective()) then old(files)[file := content] else old(files)
      ensures ok ==> old(Effective())
      ensures directory == old(directory) && (alive ==> old(alive))
      ensures !old(alive) ==> files == old(files)
      ensures old(alive) && old(faults) == [] ==> ok && faults == [] && alive
    {
      var happens;
      happens, ok := Next();
      if happens {
        files := files[file := content];
      }
    }

    /** Opens a new file, which must not exist. */
    method Create(file: File) returns (ok: bool)
      modifies this
      ensures files ==
                if file !in old(files) && old(Effective()) then old(files)[file := Partial] else old(files)
      ensures ok ==> file !in old(files) && old(Effective())
      ensures directory == old(directory) && (alive ==> old(alive))
      ensures !old(alive) ==> files == old(files)
      ensures old(alive) && old(faults) == [] && file !in old(files) ==> ok && faults == [] && alive
    {
      if file in files {
        ok := false;
      } else {
        ok := Put(file, Partial);
      }
    }

    /** Moves a file over another in one step. */
    method Replace(source: File, target: File) returns (ok: bool)
      requires source in files && source != target
      modifies this
      ensures files == if old(Effective()) then old(files)[target := old(files)[source]] - {source} else old(files)
      ensures ok ==> old(Effective())
      ensures directory == old(directory) && (alive ==> old(alive))
      ensures !old(alive) ==> files == old(files)
      ensures old(alive) && old(faults) == [] ==> ok && faults == [] && alive
    {
      var happens;
      happens, ok := Next();
      if happens {
        files := files[target := files[source]] - {source};
      }
    }

    method Unlink(file: File) returns (ok: bool)
      modifies this
      ensures files == if old(Effective()) then old(files) - {file} else old(files)
      ensures directory == old(directory) && (alive ==> old(alive))
      ensures !old(alive) ==> files == old(files)
      ensures old(alive) && old(faults) == [] ==> ok && faults == [] && alive
    {
      var happens;
      happens, ok := Next();
      if happens {
        files := files - {file};
      }
    }

    /**
      Publishes a file: whatever goes wrong, the visible files are those from before or the same
      with the whole new content, and after success they are the latter.
    */
    method Write(file: File, content: Content, nonce: string) returns (ok: bool, ghost written: bool)
      requires !Temporary(file)
      modifies this
      ensures Visible(files) == if written then Visible(old(files))[file := content] else Visible(old(files))
      ensures ok ==> written
      ensures written ==> old(alive)
      ensures directory == old(directory) && (alive ==> old(alive))
      ensures old(Calm()) ==> ok && Calm()
    {
      var temporary := TemporaryOf(file, nonce);
      TemporaryNames(file, nonce, "");
      written := false;
      ok := Create(temporary);
      VisiblePut(old(files), temporary, Partial);
      ghost var created := files;
      if ok {
        ok := Put(temporary, content);
        VisiblePut(created, temporary, content);
        if ok {
          ghost var full := files;
          ok := Replace(temporary, file);
          written := files != full;
          VisibleReplace(full, temporary, file);
        }
      }
      ghost var before := files;
      var cleaned := Unlink(temporary);
      VisibleRemove(before, temporary);
      ok := ok && cleaned;
    }

    /** Creates the run's directory and the one for its results. */
    method MakeDirectories() returns (ok: bool)
      modifies this
      ensures files == old(files)
      ensures directory <==> old(directory) || old(Effective())
      ensures ok ==> !old(directory) && directory
      ensures old(Calm()) && !old(directory) ==> ok && Calm()
    {
      if directory {
        return false;
      }
      var happens;
      happens, ok := Next();
      if happens {
        directory := true;
      }
      if ok {
        happens, ok := Next();
      }
    }

    /** Creates the run's directory, its manifest and its first status. */
    method Start(run: Run, nonces: (string, string))
      returns (ok: bool, ghost manifest: bool, ghost status: Option<Status>)
      requires files == map[]
      modifies this
      ensures Visible(files) == Snapshot(run, manifest, status, [])
      ensures status == None || status == Some(Running)
      ensures ok ==> manifest && status == Some(Running)
      ensures old(Calm()) && !old(directory) ==> ok && Calm()
    {
      manifest, status := false, None;
      TemporaryNames(MANIFEST, "", "");
      SnapshotStart(run);
      ok := MakeDirectories();
      if ok {
        ok, manifest := Write(MANIFEST, ManifestDoc(run), nonces.0);
      }
      if ok {
        ghost var written;
        ok, written := Write(STATUS, StatusDoc(Running), nonces.1);
        status := if written then Some(Running) else None;
      }
    }
  }

  lemma SnapshotStart(run: Run)
    ensures Snapshot(run, false, None, []) == Visible(map[]) == map[]
    ensures Snapshot(run, true, None, []) == map[MANIFEST := ManifestDoc(run)]
    ensures Snapshot(run, true, Some(Running), []) == map[MANIFEST := ManifestDoc(run)][STATUS := StatusDoc(Running)]
  {
  }

  lemma VisiblePut(files: Files, file: File, content: Content)
    ensures Visible(files[file := content]) ==
              if Temporary(file) then Visible(files) else Visible(files)[file := content]
  {
  }

  lemma VisibleRemove(files: Files, file: File)
    requires Temporary(file)
    ensures Visible(files - {file}) == Visible(files)
  {
  }

  lemma VisibleReplace(files: Files, source: File, target: File)
    requires source in files && Temporary(source) && !Temporary(target)
    ensures Visible(files[target := files[source]] - {source}) == Visible(files)[target := files[source]]
  {
  }

  // ---------- What a run has published ----------

  /** The files of the given results; a repeated id keeps the last. */
  function Published(results: seq<BenchmarkResult>): Files {
    if results == [] then map[]
    else
      var last := results[|results| - 1];
      Published(results[..|results| - 1])[ResultFile(last.resultId) := ResultDoc(last)]
  }

  function Snapshot(run: Run, manifest: bool, status: Option<Status>, results: seq<BenchmarkResult>): Files {
    Published(results)
    + (if manifest then map[MANIFEST := ManifestDoc(run)] else map[])
    + (if status.Some? then map[STATUS := StatusDoc(status.value)] else map[])
  }

  function Row(task: string, models: seq<string>): seq<(string, string)> {
    if models == [] then [] else Row(task, models[..|models| - 1]) + [(task, models[|models| - 1])]
  }

  /** All pairs in the order in which they are run, task by task. */
  function AllPairs(tasks: seq<string>, models: seq<string>): seq<(string, string)> {
    if tasks == [] then [] else AllPairs(tasks[..|tasks| - 1], models) + Row(tasks[|tasks| - 1], models)
  }

  function PairsIn(results: seq<BenchmarkResult>): seq<(string, string)> {
    seq(|results|, i requires 0 <= i < |results| => PairOf(results[i]))
  }

  ghost predicate Own(results: seq<BenchmarkResult>, runId: string) {
    forall i :: 0 <= i < |results| ==> results[i].runId == runId
  }

  ghost predicate DistinctIds(results: seq<BenchmarkResult>) {
    forall i, j :: 0 <= i < j < |results| ==> results[i].resultId != results[j].resultId
  }

  // ---------- The producer ----------

  /** What one call of the service comes to: an answer or recorded failure, or an exception that ends the run. */
  datatype Call = Answered(resultId: string, payload: string, nonce: string) | Raises

  datatype SelectionError = InvalidSelection

  datatype Outcome = NotStarted | Finished | Raised

  /** The run that a selection describes. */
  function Select(runId: string, dataset: seq<string>, models: seq<string>, limit: Option<int>)
    : Result<Run, SelectionError>
  {
    if models == [] || (exists i, j :: 0 <= i < j < |models| && models[i] == models[j]) then Err(InvalidSelection)
    else if limit.Some? && limit.value <= 0 then Err(InvalidSelection)
    else
      var selected := if limit.Some? && limit.value < |dataset| then dataset[..limit.value] else dataset;
      Ok(Run(runId, dataset, selected, models))
  }

  lemma SelectSpec(runId: string, dataset: seq<string>, models: seq<string>, limit: Option<int>)
    requires Distinct(dataset) && dataset != [] && Select(runId, dataset, models, limit).Ok?
    ensures Selection(Select(runId, dataset, models, limit).value)
  {
    var run := Select(runId, dataset, models, limit).value;
    assert forall x :: x in run.selected ==> x in dataset;
  }

  ghost predicate Selection(run: Run) {
    && run.selected != [] && Distinct(run.selected) && Elements(run.selected) <= Elements(run.datasetTasks)
    && run.models != [] && Distinct(run.models)
  }

  lemma {:induction false} PublishedHasNoStatus(results: seq<BenchmarkResult>)
    ensures forall f :: f in Published(results) ==> f.InResults?
  {
    if results != [] {
      PublishedHasNoStatus(results[..|results| - 1]);
    }
  }

  lemma SnapshotWithResult(run: Run, status: Option<Status>, results: seq<BenchmarkResult>, result: BenchmarkResult)
    ensures Snapshot(run, true, status, results)[ResultFile(result.resultId) := ResultDoc(result)]
            == Snapshot(run, true, status, results + [result])
  {
    assert (results + [result])[..|results|] == results;
  }

  lemma SnapshotWithStatus(run: Run, before: Option<Status>, status: Status, results: seq<BenchmarkResult>)
    ensures Snapshot(run, true, before, results)[STATUS := StatusDoc(status)] ==
              Snapshot(run, true, Some(status), results)
  {
  }

  method Finish(disk: Disk, run: Run, status: Status, nonce: string, ghost before: Status,
                ghost results: seq<BenchmarkResult>)
    returns (ok: bool, ghost after: Status)
    requires Visible(disk.files) == Snapshot(run, true, Some(before), results)
    modifies disk
    ensures Visible(disk.files) == Snapshot(run, true, Some(after), results)
    ensures after == before || after == status
    ensures ok ==> after == status
    ensures old(disk.Calm()) ==> ok && disk.Calm()
  {
    TemporaryNames(STATUS, nonce, "");
    ghost var written;
    ok, written := disk.Write(STATUS, StatusDoc(status), nonce);
    after := if written then status else before;
    SnapshotWithStatus(run, Some(before), status, results);
  }

  /** Some results stand for some pairs, in order. */
  ghost predicate Listed(run: Run, results: seq<BenchmarkResult>, pairs: seq<(string, string)>) {
    PairsIn(results) == pairs && Own(results, run.runId)
  }

  /** What is recorded of a call for a pair. */
  function ResultOf(run: Run, call: Call, pair: (string, string)): BenchmarkResult
    requires call.Answered?
  {
    BenchmarkResult(call.resultId, run.runId, pair.0, pair.1, call.payload)
  }

  /** How far a run has got: the results so far are those of its first calls, one for each pair in order. */
  ghost predicate Progress(run: Run, calls: seq<Call>, results: seq<BenchmarkResult>, pairs: seq<(string, string)>) {
    && |results| == |pairs| <= |calls|
    && forall i :: 0 <= i < |results| ==> calls[i].Answered? && results[i] == ResultOf(run, calls[i], pairs[i])
  }

  /** The run has got some way through the pairs. */
  ghost predicate Begun(run: Run, calls: seq<Call>, results: seq<BenchmarkResult>, pairs: seq<(string, string)>) {
    |results| <= |pairs| && Progress(run, calls, results, pairs[..|results|])
  }

  lemma ProgressListed(run: Run, calls: seq<Call>, results: seq<BenchmarkResult>, pairs: seq<(string, string)>)
    requires Progress(run, calls, results, pairs)
    ensures Listed(run, results, pairs) && Begun(run, calls, results, pairs)
  {
    assert pairs[..|results|] == pairs;
  }

  lemma BegunLonger(run: Run, calls: seq<Call>, results: seq<BenchmarkResult>, pairs: seq<(string, string)>,
                    more: seq<(string, string)>)
    requires Begun(run, calls, results, pairs) && pairs <= more
    ensures Begun(run, calls, results, more)
  {
    assert more[..|results|] == pairs[..|results|];
  }

  lemma ProgressNext(run: Run, calls: seq<Call>, results: seq<BenchmarkResult>, pairs: seq<(string, string)>,
                     pair: (string, string))
    requires Progress(run, calls, results, pairs) && |pairs| < |calls| && calls[|pairs|].Answered?
    ensures Progress(run, calls, results + [ResultOf(run, calls[|pairs|], pair)], pairs + [pair])
  {
  }

  function CallAt(calls: seq<Call>, i: nat): Call {
    if i < |calls| then calls[i] else Raises
  }

  /** Runs one pair and records its result. */
  method RecordOne(disk: Disk, run: Run, task: string, model: string, ghost calls: seq<Call>, call: Call,
                   ghost results: seq<BenchmarkResult>, ghost pairs: seq<(string, string)>)
    returns (ok: bool, ghost longer: seq<BenchmarkResult>)
    requires Visible(disk.files) == Snapshot(run, true, Some(Running), results)
    requires Progress(run, calls, results, pairs) && call == CallAt(calls, |pairs|)
    modifies disk
    ensures Visible(disk.files) == Snapshot(run, true, Some(Running), longer)
    ensures Progress(run, calls, longer, pairs) || Progress(run, calls, longer, pairs + [(task, model)])
    ensures ok ==> Progress(run, calls, longer, pairs + [(task, model)])
    ensures old(disk.Calm()) && call.Answered? ==> ok && disk.Calm()
  {
    longer := results;
    ok := false;
    if call.Answered? {
      var result := ResultOf(run, call, (task, model));
      TemporaryNames(ResultFile(call.resultId), call.nonce, call.resultId);
      ghost var written;
      ok, written := disk.Write(ResultFile(call.resultId), ResultDoc(result), call.nonce);
      SnapshotWithResult(run, Some(Running), results, result);
      ProgressNext(run, calls, results, pairs, (task, model));
      longer := if written then results + [result] else results;
    }
  }

  /** Enough calls for n results, each of which produces one. */
  ghost predicate AllAnswered(calls: seq<Call>, n: nat) {
    n <= |calls| && forall i :: 0 <= i < n ==> calls[i].Answered?
  }

  /** One task with every model. */
  method RecordTask(disk: Disk, run: Run, task: string, calls: seq<Call>, used: nat,
                    ghost results: seq<BenchmarkResult>, ghost pairs: seq<(string, string)>)
    returns (ok: bool, ghost longer: seq<BenchmarkResult>)
    requires Visible(disk.files) == Snapshot(run, true, Some(Running), results)
    requires Progress(run, calls, results, pairs) && used == |pairs|
    modifies disk
    ensures Visible(disk.files) == Snapshot(run, true, Some(Running), longer)
    ensures Begun(run, calls, longer, pairs + Row(task, run.models))
    ensures ok ==> Progress(run, calls, longer, pairs + Row(task, run.models))
    ensures old(disk.Calm()) && AllAnswered(calls, used + |run.models|) ==> ok && disk.Calm()
  {
    ok, longer := true, results;
    var m := 0;
    assert pairs + Row(task, run.models[..0]) == pairs;
    ProgressListed(run, calls, results, pairs);
    while ok && m < |run.models|
      invariant 0 <= m <= |run.models|
      invariant Visible(disk.files) == Snapshot(run, true, Some(Running), longer)
      invariant Begun(run, calls, longer, pairs + Row(task, run.models[..m]))
      invariant ok ==> Progress(run, calls, longer, pairs + Row(task, run.models[..m]))
      invariant old(disk.Calm()) && AllAnswered(calls, used + |run.models|) ==> ok && disk.Calm()
      decreases |run.models| - m, ok
    {
      PairsStep(pairs, task, run.models, m);
      ghost var sofar := pairs + Row(task, run.models[..m]);
      ghost var next := pairs + Row(task, run.models[..m + 1]);
      ok, longer := RecordOne(disk, run, task, run.models[m], calls, CallAt(calls, used + m), longer, sofar);
      AfterOne(run, calls, longer, sofar, next);
      m := m + 1;
    }
    BegunInRow(run, calls, longer, pairs, task, m);
    assert run.models[..|run.models|] == run.models;
  }

  lemma {:induction false} PairsStep(pairs: seq<(string, string)>, task: string, models: seq<string>, m: nat)
    requires m < |models|
    ensures pairs + Row(task, models[..m + 1]) == pairs + Row(task, models[..m]) + [(task, models[m])]
    ensures |pairs + Row(task, models[..m])| == |pairs| + m
  {
    RowStep(task, models, m);
  }

  lemma {:induction false} BegunInRow(
      run: Run, calls: seq<Call>, results: seq<BenchmarkResult>, pairs: seq<(string, string)>, task: string, m: nat)
    requires m <= |run.models| && Begun(run, calls, results, pairs + Row(task, run.models[..m]))
    ensures Begun(run, calls, results, pairs + Row(task, run.models))
  {
    RowPrefix(task, run.models, m);
    BegunLonger(run, calls, results, pairs + Row(task, run.models[..m]), pairs + Row(task, run.models));
  }

  lemma AfterOne(run: Run, calls: seq<Call>, results: seq<BenchmarkResult>, sofar: seq<(string, string)>,
                 next: seq<(string, string)>)
    requires sofar <= next
    requires Progress(run, calls, results, sofar) || Progress(run, calls, results, next)
    ensures Begun(run, calls, results, next)
  {
    if Progress(run, calls, results, next) {
      ProgressListed(run, calls, results, next);
    } else {
      ProgressListed(run, calls, results, sofar);
      BegunLonger(run, calls, results, sofar, next);
    }
  }

  /** Every task in turn. */
  method RecordAll(disk: Disk, run: Run, calls: seq<Call>) returns (ok: bool, ghost results: seq<BenchmarkResult>)
    requires Visible(disk.files) == Snapshot(run, true, Some(Running), [])
    modifies disk
    ensures Visible(disk.files) == Snapshot(run, true, Some(Running), results)
    ensures Begun(run, calls, results, AllPairs(run.selected, run.models))
    ensures ok ==> Progress(run, calls, results, AllPairs(run.selected, run.models))
    ensures old(disk.Calm()) && AllAnswered(calls, |AllPairs(run.selected, run.models)|) ==> ok && disk.Calm()
  {
    ok, results := true, [];
    var t, used := 0, 0;
    while ok && t < |run.selected|
      invariant 0 <= t <= |run.selected|
      invariant Visible(disk.files) == Snapshot(run, true, Some(Running), results)
      invariant Begun(run, calls, results, AllPairs(run.selected[..t], run.models))
      invariant ok ==> Progress(run, calls, results, AllPairs(run.selected[..t], run.models))
      invariant used == |AllPairs(run.selected[..t], run.models)|
      invariant old(disk.Calm()) && AllAnswered(calls, |AllPairs(run.selected, run.models)|) ==> ok && disk.Calm()
      decreases |run.selected| - t, ok
    {
      AllPairsStep(run.selected, run.models, t);
      ghost var pairs := AllPairs(run.selected[..t], run.models);
      ok, results := RecordTask(disk, run, run.selected[t], calls, used, results, pairs);
      used, t := used + |run.models|, t + 1;
    }
    BegunInAll(run, calls, results, t);
    assert run.selected[..|run.selected|] == run.selected;
  }

  lemma BegunInAll(run: Run, calls: seq<Call>, results: seq<BenchmarkResult>, t: nat)
    requires t <= |run.selected| && Begun(run, calls, results, AllPairs(run.selected[..t], run.models))
    ensures Begun(run, calls, results, AllPairs(run.selected, run.models))
  {
    AllPairsPrefix(run.selected, run.models, t);
    BegunLonger(run, calls, results, AllPairs(run.selected[..t], run.models), AllPairs(run.selected, run.models));
  }

  /**
    A whole run on a fresh disk: start, every task with every model, then the final status.
    Whatever the faults, the visible files at the end are a snapshot of the run: the results of
    its first calls in order, and the status `completed` only if all of them are there.
  */
  method Produce(disk: Disk, run: Run, calls: seq<Call>, nonces: seq<string>)
    returns (outcome: Outcome, ghost manifest: bool, ghost status: Option<Status>, ghost results: seq<BenchmarkResult>)
    requires disk.files == map[] && |nonces| == 4
    modifies disk
    ensures Visible(disk.files) == Snapshot(run, manifest, status, results)
    ensures Begun(run, calls, results, AllPairs(run.selected, run.models))
    ensures status == Some(Completed) ==> manifest && Progress(run, calls, results, AllPairs(run.selected, run.models))
    ensures outcome == Finished ==> status == Some(Completed)
    ensures old(disk.Calm() && !disk.directory) && AllAnswered(calls, |AllPairs(run.selected, run.models)|)
            ==> outcome == Finished
  {
    var ok;
    ok, manifest, status := disk.Start(run, (nonces[0], nonces[1]));
    if !ok {
      return NotStarted, manifest, status, [];
    }
    ok, results := RecordAll(disk, run, calls);
    ghost var after := Running;
    if ok {
      ok, after := Finish(disk, run, Completed, nonces[2], Running, results);
      if ok {
        return Finished, true, Some(after), results;
      }
    }
    var _, last := Finish(disk, run, Aborted, nonces[3], after, results);
    return Raised, true, Some(last), results;
  }

  lemma {:induction false} RowPrefix(task: string, models: seq<string>, m: nat)
    requires m <= |models|
    ensures Row(task, models[..m]) <= Row(task, models)
    decreases |models| - m
  {
    if m < |models| {
      RowStep(task, models, m);
      RowPrefix(task, models, m + 1);
    } else {
      assert models[..m] == models;
    }
  }

  lemma {:induction false} AllPairsPrefix(tasks: seq<string>, models: seq<string>, t: nat)
    requires t <= |tasks|
    ensures AllPairs(tasks[..t], models) <= AllPairs(tasks, models)
    decreases |tasks| - t
  {
    if t < |tasks| {
      AllPairsStep(tasks, models, t);
      AllPairsPrefix(tasks, models, t + 1);
    } else {
      assert tasks[..t] == tasks;
    }
  }

  lemma {:induction false} RowStep(task: string, models: seq<string>, m: nat)
    requires m < |models|
    ensures Row(task, models[..m + 1]) == Row(task, models[..m]) + [(task, models[m])]
    ensures |Row(task, models[..m])| == m
  {
    assert models[..m + 1][..m] == models[..m];
    RowLength(task, models[..m]);
  }

  lemma {:induction false} RowLength(task: string, models: seq<string>)
    ensures |Row(task, models)| == |models|
  {
    if models != [] {
      RowLength(task, models[..|models| - 1]);
    }
  }

  lemma AllPairsStep(tasks: seq<string>, models: seq<string>, t: nat)
    requires t < |tasks|
    ensures AllPairs(tasks[..t + 1], models) == AllPairs(tasks[..t], models) + Row(tasks[t], models)
    ensures |AllPairs(tasks[..t + 1], models)| == |AllPairs(tasks[..t], models)| + |models|
    ensures |AllPairs(tasks[..t + 1], models)| <= |AllPairs(tasks, models)|
  {
    assert tasks[..t + 1][..t] == tasks[..t];
    AllPairsGrow(tasks, models, t + 1);
    RowLength(tasks[t], models);
  }

  lemma {:induction false} AllPairsGrow(tasks: seq<string>, models: seq<string>, t: nat)
    requires t <= |tasks|
    ensures |AllPairs(tasks[..t], models)| <= |AllPairs(tasks, models)|
    decreases |tasks| - t
  {
    if t < |tasks| {
      assert tasks[..t + 1][..t] == tasks[..t];
      AllPairsGrow(tasks, models, t + 1);
    } else {
      assert tasks[..t] == tasks;
    }
  }

  // ---------- What the loader makes of a run ----------

  /** The results by file name. */
  function ByName(results: seq<BenchmarkResult>): Results {
    if results == [] then map[]
    else
      var last := results[|results| - 1];
      ByName(results[..|results| - 1])[last.resultId + ".json" := last]
  }

  /** The files of a snapshot: the manifest, the status, and one file per result id, which holds its last result. */
  lemma {:induction false} SnapshotFiles(
      run: Run, manifest: bool, status: Option<Status>, results: seq<BenchmarkResult>)
    ensures var files := Snapshot(run, manifest, status, results);
            && Read(files, InRoot("manifest.json")) == (if manifest then Some(ManifestDoc(run)) else None)
            && Read(files, InRoot("status.json")) == (if status.Some? then Some(StatusDoc(status.value)) else None)
            && forall n :: InResults(n) in files <==> InResults(n) in Published(results)
    ensures forall i :: 0 <= i < |results| ==> InResults(results[i].resultId + ".json") in Published(results)
    ensures forall f :: f in Published(results) ==>
              exists i :: 0 <= i < |results| && f == InResults(results[i].resultId + ".json")
                          && Published(results)[f] == ResultDoc(results[i])
  {
    SnapshotReads(run, manifest, status, results);
    PublishedFiles(results);
  }

  lemma {:induction false} PublishedFiles(results: seq<BenchmarkResult>)
    ensures forall i :: 0 <= i < |results| ==> InResults(results[i].resultId + ".json") in Published(results)
    ensures forall f :: f in Published(results) ==>
              exists i :: 0 <= i < |results| && f == InResults(results[i].resultId + ".json")
                          && Published(results)[f] == ResultDoc(results[i])
  {
    if results != [] {
      var n := |results| - 1;
      PublishedFiles(results[..n]);
      forall f | f in Published(results)
        ensures exists i :: 0 <= i < |results| && f == InResults(results[i].resultId + ".json")
                            && Published(results)[f] == ResultDoc(results[i])
      {
        if f != InResults(results[n].resultId + ".json") {
          var i :| 0 <= i < n && f == InResults(results[..n][i].resultId + ".json")
                   && Published(results[..n])[f] == ResultDoc(results[..n][i]);
          assert results[i] == results[..n][i];
        }
      }
    }
  }

  lemma {:induction false} ResultsOfPublished(results: seq<BenchmarkResult>)
    ensures ResultsIn(Published(results)) == ByName(results)
    ensures AllDocuments(Published(results))
    ensures forall f :: f in Published(results) ==> f.InResults? && EndsWith(f.name, ".json")
  {
    if results != [] {
      var earlier, last := results[..|results| - 1], results[|results| - 1];
      ResultsOfPublished(earlier);
      TemporaryNames(MANIFEST, "", last.resultId);
      PutResult(Published(earlier), last.resultId + ".json", last);
    }
  }

  lemma NameListed(files: Files, n: string)
    ensures n in ResultNames(files) <==> InResults(n) in files && EndsWith(n, ".json")
  {
    var f := InResults(n);
    if f in files && EndsWith(n, ".json") {
      assert f.InResults? && EndsWith(f.name, ".json") && f.name == n;
    }
  }

  /** Two sets of files with the same contents under `results` list the same. */
  lemma SameResults(files: Files, others: Files)
    requires forall n :: InResults(n) in files <==> InResults(n) in others
    requires forall n :: InResults(n) in files ==> files[InResults(n)] == others[InResults(n)]
    ensures ResultsIn(files) == ResultsIn(others) && AllDocuments(files) == AllDocuments(others)
  {
    forall n
      ensures n in ResultNames(files) <==> n in ResultNames(others)
    {
      NameListed(files, n);
      NameListed(others, n);
    }
    forall n | n in ResultNames(files)
      ensures InResults(n) in files && files[InResults(n)] == others[InResults(n)]
    {
      NameListed(files, n);
    }
    assert ResultNames(files) == ResultNames(others);
  }

  lemma PutName(files: Files, name: string, content: Content)
    requires EndsWith(name, ".json")
    ensures ResultNames(files[InResults(name) := content]) == ResultNames(files) + {name}
  {
    var more := files[InResults(name) := content];
    forall n
      ensures n in ResultNames(more) <==> n in ResultNames(files) || n == name
    {
      NameListed(files, n);
      NameListed(more, n);
    }
  }

  lemma PutDocuments(files: Files, name: string, result: BenchmarkResult)
    requires EndsWith(name, ".json") && AllDocuments(files)
    ensures AllDocuments(files[InResults(name) := ResultDoc(result)])
  {
    var more := files[InResults(name) := ResultDoc(result)];
    forall n | n in ResultNames(more)
      ensures more[InResults(n)].ResultDoc?
    {
      NameListed(more, n);
      NameListed(files, n);
    }
  }

  lemma UpdatedMap(before: Results, after: Results, name: string, result: BenchmarkResult)
    requires after.Keys == before.Keys + {name} && after[name] == result
    requires forall n :: n in before && n != name ==> after[n] == before[n]
    ensures after == before[name := result]
  {
  }

  lemma PutResult(files: Files, name: string, result: BenchmarkResult)
    requires EndsWith(name, ".json") && AllDocuments(files)
    ensures ResultsIn(files[InResults(name) := ResultDoc(result)]) == ResultsIn(files)[name := result]
    ensures AllDocuments(files[InResults(name) := ResultDoc(result)])
  {
    var more := files[InResults(name) := ResultDoc(result)];
    PutName(files, name, ResultDoc(result));
    PutDocuments(files, name, result);
    ListedResults(files);
    ListedResults(more);
    assert forall n :: n in ResultNames(files) && n != name ==> more[InResults(n)] == files[InResults(n)];
    UpdatedMap(ResultsIn(files), ResultsIn(more), name, result);
  }

  lemma ListedResults(files: Files)
    requires AllDocuments(files)
    ensures ResultsIn(files).Keys == ResultNames(files)
    ensures forall n :: n in ResultNames(files) ==> ResultsIn(files)[n] == files[InResults(n)].result
  {
  }

  lemma {:induction false} ResultsOfSnapshot(
      run: Run, manifest: bool, status: Option<Status>, results: seq<BenchmarkResult>)
    ensures ResultsIn(Snapshot(run, manifest, status, results)) == ByName(results)
    ensures AllDocuments(Snapshot(run, manifest, status, results))
  {
    ResultsOfPublished(results);
    OverlayResults(Published(results), if manifest then map[MANIFEST := ManifestDoc(run)] else map[],
                   if status.Some? then map[STATUS := StatusDoc(status.value)] else map[]);
  }

  /** Files of the run's own directory do not show among the results. */
  lemma OverlayResults(files: Files, a: Files, b: Files)
    requires a.Keys <= {MANIFEST} && b.Keys <= {STATUS}
    ensures ResultsIn(files + a + b) == ResultsIn(files) && AllDocuments(files + a + b) == AllDocuments(files)
  {
    forall n
      ensures InResults(n) in files + a + b <==> InResults(n) in files
      ensures InResults(n) in files ==> (files + a + b)[InResults(n)] == files[InResults(n)]
    {
      assert InResults(n) !in a && InResults(n) !in b;
    }
    SameResults(files + a + b, files);
  }

  lemma SnapshotReads(run: Run, manifest: bool, status: Option<Status>, results: seq<BenchmarkResult>)
    ensures Read(Snapshot(run, manifest, status, results), MANIFEST) ==
              if manifest then Some(ManifestDoc(run)) else None
    ensures Read(Snapshot(run, manifest, status, results), STATUS)
            == if status.Some? then Some(StatusDoc(status.value)) else None
  {
    PublishedHasNoStatus(results);
  }

  lemma SameName(a: string, b: string)
    requires a + ".json" == b + ".json"
    ensures a == b
  {
    assert (a + ".json")[..|a + ".json"| - 5] == a;
    assert (b + ".json")[..|b + ".json"| - 5] == b;
  }

  /** A name holds the last result with its id. */
  lemma {:induction false} ByNameLast(results: seq<BenchmarkResult>, k: nat) returns (m: nat)
    requires k < |results|
    ensures k <= m < |results| && results[m].resultId == results[k].resultId
    ensures results[k].resultId + ".json" in ByName(results)
    ensures ByName(results)[results[k].resultId + ".json"] == results[m]
  {
    var n := |results| - 1;
    if results[n].resultId == results[k].resultId {
      m := n;
    } else {
      m := ByNameLast(results[..n], k);
      if results[n].resultId + ".json" == results[k].resultId + ".json" {
        SameName(results[n].resultId, results[k].resultId);
      }
    }
  }

  lemma {:induction false} ByNameFrom(results: seq<BenchmarkResult>, name: string) returns (k: nat)
    requires name in ByName(results)
    ensures k < |results| && ByName(results)[name] == results[k] && name == results[k].resultId + ".json"
  {
    var n := |results| - 1;
    if name == results[n].resultId + ".json" {
      k := n;
    } else {
      k := ByNameFrom(results[..n], name);
    }
  }

  lemma {:induction false} RowSpec(task: string, models: seq<string>)
    ensures |Row(task, models)| == |models|
    ensures forall m :: 0 <= m < |models| ==> Row(task, models)[m] == (task, models[m])
  {
    if models != [] {
      RowSpec(task, models[..|models| - 1]);
    }
  }

  lemma {:induction false} RowElements(task: string, models: seq<string>, p: (string, string))
    ensures p in Row(task, models) <==> p.0 == task && p.1 in models
  {
    RowSpec(task, models);
    if p.0 == task && p.1 in models {
      var m :| 0 <= m < |models| && models[m] == p.1;
      assert Row(task, models)[m] == p;
    }
  }

  /** The pairs are those of the product. */
  lemma {:induction false} AllPairsElements(tasks: seq<string>, models: seq<string>, p: (string, string))
    ensures p in AllPairs(tasks, models) <==> p.0 in tasks && p.1 in models
  {
    if tasks != [] {
      var n := |tasks| - 1;
      AllPairsElements(tasks[..n], models, p);
      RowElements(tasks[n], models, p);
      assert tasks == tasks[..n] + [tasks[n]];
    }
  }

  /** Of distinct tasks and models each pair comes once. */
  lemma {:induction false} AllPairsDistinct(tasks: seq<string>, models: seq<string>)
    requires Distinct(tasks) && Distinct(models)
    ensures Distinct(AllPairs(tasks, models))
  {
    if tasks != [] {
      var n := |tasks| - 1;
      AllPairsDistinct(tasks[..n], models);
      RowSpec(tasks[n], models);
      var before, row := AllPairs(tasks[..n], models), Row(tasks[n], models);
      forall i | 0 <= i < |before|
        ensures before[i].0 != tasks[n]
      {
        AllPairsElements(tasks[..n], models, before[i]);
        assert before[i] in before;
      }
    }
  }

  lemma {:induction false} AllPairsSpec(tasks: seq<string>, models: seq<string>)
    ensures forall p :: p in AllPairs(tasks, models) <==> p in Product(tasks, models)
    ensures Distinct(tasks) && Distinct(models) ==> Distinct(AllPairs(tasks, models))
  {
    forall p
      ensures p in AllPairs(tasks, models) <==> p in Product(tasks, models)
    {
      AllPairsElements(tasks, models, p);
      assert p == (p.0, p.1);
    }
    if Distinct(tasks) && Distinct(models) {
      AllPairsDistinct(tasks, models);
    }
  }

  /** Pair t * |models| + m is task t with model m. */
  lemma {:induction false} AllPairsAt(tasks: seq<string>, models: seq<string>, t: nat, m: nat)
    requires t < |tasks| && m < |models|
    ensures |AllPairs(tasks, models)| == |tasks| * |models|
    ensures t * |models| + m < |AllPairs(tasks, models)|
    ensures AllPairs(tasks, models)[t * |models| + m] == (tasks[t], models[m])
  {
    var n := |tasks| - 1;
    var before, row := AllPairs(tasks[..n], models), Row(tasks[n], models);
    RowSpec(tasks[n], models);
    AllPairsLength(tasks[..n], models);
    NextRow(n, |models|);
    if t < n {
      AllPairsAt(tasks[..n], models, t, m);
    }
  }

  lemma NextRow(n: nat, width: nat)
    ensures (n + 1) * width == n * width + width
  {
  }

  lemma {:induction false} AllPairsLength(tasks: seq<string>, models: seq<string>)
    ensures |AllPairs(tasks, models)| == |tasks| * |models|
  {
    if tasks != [] {
      var n := |tasks| - 1;
      AllPairsLength(tasks[..n], models);
      RowLength(tasks[n], models);
      NextRow(n, |models|);
    }
  }

  lemma {:induction false} NamesAndPairs(run: Run, results: seq<BenchmarkResult>)
    requires Selection(run) && Listed(run, results, AllPairs(run.selected, run.models))
    ensures IdsUnique(ByName(results)) && PairsUnique(ByName(results))
    ensures forall n :: n in ByName(results) ==> ByName(results)[n].runId == run.runId
  {
    var files, pairs := ByName(results), AllPairs(run.selected, run.models);
    AllPairsSpec(run.selected, run.models);
    forall a, b | a in files && b in files
                  && (PairOf(files[a]) == PairOf(files[b]) || files[a].resultId == files[b].resultId)
      ensures a == b
    {
      var k := ByNameFrom(results, a);
      var l := ByNameFrom(results, b);
      assert PairsIn(results)[k] == pairs[k] && PairsIn(results)[l] == pairs[l];
    }
    forall n | n in files
      ensures files[n].runId == run.runId
    {
      var k := ByNameFrom(results, n);
    }
  }

  /** Without repeated ids every pair is read back. */
  lemma {:induction false} DistinctComplete(results: seq<BenchmarkResult>, pairs: seq<(string, string)>)
    requires PairsIn(results) == pairs && DistinctIds(results)
    ensures forall p :: p in PairsOf(ByName(results)) <==> p in pairs
  {
    var files := ByName(results);
    forall p
      ensures p in PairsOf(files) <==> p in pairs
    {
      if p in PairsOf(files) {
        var n :| n in files && PairOf(files[n]) == p;
        var k := ByNameFrom(results, n);
        assert pairs[k] == p;
      }
      if p in pairs {
        var k :| 0 <= k < |pairs| && pairs[k] == p;
        var m := ByNameLast(results, k);
        assert m == k && PairOf(results[k]) == p;
      }
    }
  }

  /** A result whose id came up again later is lost, and with it its pair. */
  lemma {:induction false} OverwrittenPairLost(
      results: seq<BenchmarkResult>, pairs: seq<(string, string)>, i: nat, j: nat)
    requires PairsIn(results) == pairs && Distinct(pairs)
    requires i < j < |results| && results[i].resultId == results[j].resultId
    ensures pairs[i] !in PairsOf(ByName(results))
  {
    var files := ByName(results);
    var m := ByNameLast(results, j);
    forall n | n in files
      ensures PairOf(files[n]) != pairs[i]
    {
      if n == results[j].resultId + ".json" {
        assert PairOf(results[m]) == pairs[m];
        DifferentPairs(pairs, i, m);
      } else {
        var k := ByNameFrom(results, n);
        assert PairOf(results[k]) == pairs[k];
        DifferentPairs(pairs, i, k);
      }
    }
  }

  lemma DifferentPairs(pairs: seq<(string, string)>, i: nat, k: nat)
    requires Distinct(pairs) && i < |pairs| && k < |pairs| && i != k
    ensures pairs[i] != pairs[k]
  {
  }

  /** The recorded pairs are complete exactly when no result has overwritten another. */
  lemma {:induction false} CompleteIffDistinct(run: Run, results: seq<BenchmarkResult>)
    requires Selection(run) && Listed(run, results, AllPairs(run.selected, run.models))
    ensures PairsOf(ByName(results)) == Product(run.selected, run.models) <==> DistinctIds(results)
  {
    var pairs := AllPairs(run.selected, run.models);
    AllPairsSpec(run.selected, run.models);
    if DistinctIds(results) {
      DistinctComplete(results, pairs);
    } else {
      var i, j :| 0 <= i < j < |results| && results[i].resultId == results[j].resultId;
      OverwrittenPairLost(results, pairs, i, j);
      assert |pairs| == |results|;
      assert pairs[i] in pairs;
    }
  }

  /**
    The loader accepts what a run has published exactly when the run was completed and no result
    id came up twice, and then it reads back exactly the results that were recorded.
  */
  lemma {:induction false} SnapshotLoads(
      run: Run, manifest: bool, status: Option<Status>, results: seq<BenchmarkResult>)
    requires Selection(run)
    requires status == Some(Completed) ==> manifest && Listed(run, results, AllPairs(run.selected, run.models))
    ensures var loaded := Load(Snapshot(run, manifest, status, results), run.runId);
            && (loaded.Ok? <==> status == Some(Completed) && DistinctIds(results))
            && (loaded.Ok? ==> loaded.value == (run, ByName(results)))
            && (loaded == Err(NotFound) <==> !manifest || status == None)
            && (loaded == Err(NotCompleted) <==> manifest && status.Some? && status != Some(Completed))
            && (loaded == Err(WrongPairs) <==> status == Some(Completed) && !DistinctIds(results))
  {
    SnapshotReads(run, manifest, status, results);
    ResultsOfSnapshot(run, manifest, status, results);
    if status == Some(Completed) {
      NamesAndPairs(run, results);
      CompleteIffDistinct(run, results);
      AllPairsSpec(run.selected, run.models);
      assert run.selected[0] in run.selected && run.models[0] in run.models;
      assert (run.selected[0], run.models[0]) in AllPairs(run.selected, run.models);
      assert |results| == |PairsIn(results)| > 0;
      var m := ByNameLast(results, 0);
    }
  }

  /** What the loader makes of a directory that shows a run's snapshot, whatever temporary files are left in it. */
  lemma {:induction false} PublishedLoads(
      files: Files, run: Run, calls: seq<Call>, manifest: bool, status: Option<Status>, results: seq<BenchmarkResult>)
    requires Selection(run) && Visible(files) == Snapshot(run, manifest, status, results)
    requires status == Some(Completed) ==> manifest && Progress(run, calls, results, AllPairs(run.selected, run.models))
    ensures Load(files, run.runId).Ok? <==> status == Some(Completed) && DistinctIds(results)
    ensures Load(files, run.runId).Ok? ==> Load(files, run.runId).value == (run, ByName(results))
  {
    if status == Some(Completed) {
      ProgressListed(run, calls, results, AllPairs(run.selected, run.models));
    }
    LoadIgnoresTemporaries(files, run.runId);
    SnapshotLoads(run, manifest, status, results);
  }

  /**
    A benchmark run from selection to loading. Whatever fails and wherever the process dies, the
    directory holds the results of the run's first calls, and the loader accepts it, leftover
    temporary files and all, exactly when the status on disk is `completed` and no result id came
    up twice; it then returns what was recorded, one result for every selected task and model. A
    run without faults ends completed.
  */
  method RunBenchmark(disk: Disk, runId: string, dataset: seq<string>, models: seq<string>, limit: Option<int>,
                      calls: seq<Call>, nonces: seq<string>)
    returns (outcome: Result<Outcome, SelectionError>, ghost run: Run, ghost manifest: bool,
             ghost status: Option<Status>,
             ghost results: seq<BenchmarkResult>)
    requires disk.files == map[] && |nonces| == 4 && Distinct(dataset) && dataset != []
    modifies disk
    ensures outcome.Err? <==> models == [] || !Distinct(models) || (limit.Some? && limit.value <= 0)
    ensures outcome.Ok? ==>
              && run.runId == runId && run.datasetTasks == dataset && run.models == models
              && run.selected == (if limit.None? || limit.value >= |dataset| then dataset else dataset[..limit.value])
    // result i is what call i returned for pair i, task by task and model by model
    ensures outcome.Ok? ==>
              && |results| <= |calls| && |results| <= |AllPairs(run.selected, models)|
              && forall i :: 0 <= i < |results| ==>
                   && calls[i].Answered? && results[i].resultId == calls[i].resultId
                   && results[i].payload == calls[i].payload && results[i].runId == runId
                   && (results[i].taskId, results[i].modelId) == AllPairs(run.selected, models)[i]
    ensures outcome.Err? ==> disk.files == map[]
    ensures outcome.Ok? ==>
              && Ok(run) == Select(runId, dataset, models, limit)
              && Visible(disk.files) == Snapshot(run, manifest, status, results)
              && Begun(run, calls, results, AllPairs(run.selected, models))
              && (Load(disk.files, runId).Ok? <==> status == Some(Completed) && DistinctIds(results))
              && (Load(disk.files, runId).Ok? ==>
                    && Load(disk.files, runId).value == (run, ByName(results))
                    && Progress(run, calls, results, AllPairs(run.selected, models)))
              && (outcome.value == Finished ==> status == Some(Completed))
              && (old(disk.Calm() && !disk.directory) && AllAnswered(calls, |AllPairs(run.selected, models)|)
                  ==> outcome.value == Finished)
  {
    var selection := Select(runId, dataset, models, limit);
    if selection.Err? {
      run, manifest, status, results := Run(runId, [], [], []), false, None, [];
      return Err(selection.error), run, manifest, status, results;
    }
    SelectSpec(runId, dataset, models, limit);
    run := selection.value;
    var ended;
    ended, manifest, status, results := Produce(disk, selection.value, calls, nonces);
    outcome := Ok(ended);
    PublishedLoads(disk.files, run, calls, manifest, status, results);
  }
}
