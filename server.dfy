/**
 * The job bookkeeping of the HTTP server: the in-memory job table, admission
 * control, the application-row index built when a job is created, the
 * filename-to-row lookup, upload accounting and the condition under which
 * the result stream ends.
 *
 * File contents are reduced to their size, the shared work queue to the
 * list of items put on it, and the per-job result queue to a flag saying
 * whether it is empty. Job ids, which the server draws at random, are
 * parameters.
 */
module Server {
  import opened Wrappers
  import opened Text
  import opened Labels

  const MaxFilesPerJob: nat := 300
  const MaxFileSize: nat := 10 * 1024 * 1024
  const MaxJobBytes: nat := 500 * 1024 * 1024
  const MaxConcurrentJobs: nat := 3

  const AllowedTypes: set<string> := {"image/jpeg", "image/png", "image/webp"}

  // ---------------------------------------------------------------------
  // The application-row index
  // ---------------------------------------------------------------------

  /** The index key of a row: its label id with surrounding whitespace removed. */
  function LabelKey(row: ApplicationRow): string {
    Strip(row.labelId)
  }

  /** The index after reading `rows` in order: the first row seen for each key. */
  function IndexOf(rows: seq<ApplicationRow>): map<string, ApplicationRow> {
    if rows == [] then map[]
    else
      var m := IndexOf(rows[..|rows| - 1]);
      var last := rows[|rows| - 1];
      if LabelKey(last) in m then m else m[LabelKey(last) := last]
  }

  /** The keys of `IndexOf(rows)` in insertion order, as the dictionary iterates them. */
  function IndexKeys(rows: seq<ApplicationRow>): seq<string> {
    if rows == [] then []
    else
      var init := rows[..|rows| - 1];
      var key := LabelKey(rows[|rows| - 1]);
      if key in IndexOf(init) then IndexKeys(init) else IndexKeys(init) + [key]
  }

  /** The keys reported as duplicates: one entry per row whose key was already indexed. */
  function Duplicates(rows: seq<ApplicationRow>): seq<string> {
    if rows == [] then []
    else
      var init := rows[..|rows| - 1];
      var key := LabelKey(rows[|rows| - 1]);
      if key in IndexOf(init) then Duplicates(init) + [key] else Duplicates(init)
  }

  predicate Distinct(keys: seq<string>) {
    forall i, j :: 0 <= i < j < |keys| ==> keys[i] != keys[j]
  }

  /** A key is indexed exactly when some row carries it. */
  lemma {:induction false} IndexCovers(rows: seq<ApplicationRow>, k: string)
    ensures k in IndexOf(rows) <==> exists i :: 0 <= i < |rows| && LabelKey(rows[i]) == k
  {
    if rows != [] {
      var init := rows[..|rows| - 1];
      IndexCovers(init, k);
      assert forall i :: 0 <= i < |init| ==> init[i] == rows[i];
    }
  }

  /** The row kept for a key is the first row carrying it; later rows with
      the same key never replace it. */
  lemma {:induction false} IndexKeepsFirst(rows: seq<ApplicationRow>, i: nat)
    requires i < |rows|
    requires forall h :: 0 <= h < i ==> LabelKey(rows[h]) != LabelKey(rows[i])
    ensures LabelKey(rows[i]) in IndexOf(rows) && IndexOf(rows)[LabelKey(rows[i])] == rows[i]
  {
    var init := rows[..|rows| - 1];
    if i < |init| {
      assert init[i] == rows[i];
      IndexKeepsFirst(init, i);
    } else {
      IndexCovers(init, LabelKey(rows[i]));
    }
  }

  /** The key list holds each indexed key once, and nothing else. */
  lemma {:induction false} IndexKeysMatchIndex(rows: seq<ApplicationRow>)
    ensures Distinct(IndexKeys(rows))
    ensures forall k :: k in IndexKeys(rows) <==> k in IndexOf(rows)
    ensures |IndexKeys(rows)| == |IndexOf(rows)|
  {
    if rows != [] {
      var init := rows[..|rows| - 1];
      IndexKeysMatchIndex(init);
    }
  }

  /** Every row is either indexed or reported as a duplicate:
      the index size plus the number of duplicates is the number of rows. */
  lemma {:induction false} IndexAccountsForEveryRow(rows: seq<ApplicationRow>)
    ensures |IndexOf(rows)| + |Duplicates(rows)| == |rows|
    ensures forall k :: k in Duplicates(rows) ==> k in IndexOf(rows)
  {
    if rows != [] {
      var init := rows[..|rows| - 1];
      IndexAccountsForEveryRow(init);
      IndexKeysMatchIndex(init);
    }
  }

  /** `create_job`'s loop over the application rows. */
  method BuildIndex(rows: seq<ApplicationRow>)
    returns (keys: seq<string>, index: map<string, ApplicationRow>, duplicates: seq<string>)
    ensures keys == IndexKeys(rows) && index == IndexOf(rows) && duplicates == Duplicates(rows)
    ensures Distinct(keys) && (forall k :: k in keys <==> k in index)
    ensures |index| + |duplicates| == |rows|
  {
    keys, index, duplicates := [], map[], [];
    var i := 0;
    while i < |rows|
      invariant i <= |rows|
      invariant keys == IndexKeys(rows[..i])
      invariant index == IndexOf(rows[..i])
      invariant duplicates == Duplicates(rows[..i])
    {
      assert rows[..i + 1][..i] == rows[..i];
      var key := LabelKey(rows[i]);
      if key in index {
        duplicates := duplicates + [key];
      } else {
        index := index[key := rows[i]];
        keys := keys + [key];
      }
      i := i + 1;
    }
    assert rows[..i] == rows;
    IndexKeysMatchIndex(rows);
    IndexAccountsForEveryRow(rows);
  }

  /** Every index entry is filed under its own row's key. */
  lemma {:induction false} IndexFilesByKey(rows: seq<ApplicationRow>)
    ensures forall k :: k in IndexOf(rows) ==> LabelKey(IndexOf(rows)[k]) == k
  {
    if rows != [] {
      IndexFilesByKey(rows[..|rows| - 1]);
    }
  }

  // ---------------------------------------------------------------------
  // Filename lookup
  // ---------------------------------------------------------------------

  /** The position of the last `c` in `s`, or -1 (`str.rfind`). */
  function LastIndexOf(s: string, c: char): (i: int)
    ensures -1 <= i < |s|
    ensures i >= 0 ==> s[i] == c
    ensures forall j :: i < j < |s| ==> s[j] != c
  {
    if s == [] then -1
    else if s[|s| - 1] == c then |s| - 1
    else LastIndexOf(s[..|s| - 1], c)
  }

  /** `os.path.splitext(p)[0]` on POSIX: drop the text from the last dot,
      unless that dot is in a directory part or the final component is
      only dots up to it (a leading-dot name has no extension). */
  function Stem(p: string): (r: string)
    ensures |r| <= |p| && r == p[..|r|]
    ensures (forall i :: 0 <= i < |p| ==> p[i] != '.') ==> r == p
    ensures r != p ==> p[|r|] == '.' && forall i :: |r| < i < |p| ==> p[i] != '.' && p[i] != '/'
  {
    var sep := LastIndexOf(p, '/');
    var dot := LastIndexOf(p, '.');
    if dot > sep && exists j :: sep + 1 <= j < dot && p[j] != '.' then p[..dot] else p
  }

  /** `name.ext` has stem `name` when the extension has no dot and no slash
      and the name is not only dots. */
  lemma StemDropsExtension(name: string, ext: string)
    requires forall i :: 0 <= i < |ext| ==> ext[i] != '.' && ext[i] != '/'
    requires forall i :: 0 <= i < |name| ==> name[i] != '/'
    requires exists i :: 0 <= i < |name| && name[i] != '.'
    ensures Stem(name + "." + ext) == name
  {
    var p := name + "." + ext;
    var dot := LastIndexOf(p, '.');
    var sep := LastIndexOf(p, '/');
    assert p[|name|] == '.';
    assert forall j :: |name| < j < |p| ==> p[j] == ext[j - |name| - 1];
    assert dot == |name|;
    assert sep == -1;
    var i :| 0 <= i < |name| && name[i] != '.';
    assert p[i] == name[i];
    assert p[..dot] == name;
  }

  /** Python's `key.lower() == stem.lower()`, restricted to ASCII case. */
  predicate SameIgnoringCase(a: string, b: string) {
    Lower(a) == Lower(b)
  }

  /** `_match_application_row`: the row filed under the filename's stem;
      failing that, the row of the first key (in insertion order) equal to
      the stem ignoring case; failing that, none. */
  method MatchApplicationRow(keys: seq<string>, index: map<string, ApplicationRow>, filename: string)
    returns (row: Option<ApplicationRow>)
    requires forall k :: k in keys <==> k in index
    ensures index == map[] ==> row == None
    ensures row.Some? ==> row.value in index.Values
    ensures Stem(filename) in index ==> row == Some(index[Stem(filename)])
    ensures Stem(filename) !in index ==>
      (row.Some? <==> exists j :: 0 <= j < |keys| && SameIgnoringCase(keys[j], Stem(filename)))
    ensures Stem(filename) !in index && row.Some? ==>
      exists j :: 0 <= j < |keys| && SameIgnoringCase(keys[j], Stem(filename)) && row == Some(index[keys[j]])
        && forall h :: 0 <= h < j ==> !SameIgnoringCase(keys[h], Stem(filename))
  {
    if |index| == 0 {
      assert forall j :: 0 <= j < |keys| ==> keys[j] in index;
      return None;
    }
    var stem := Stem(filename);
    if stem in index {
      return Some(index[stem]);
    }
    var i := 0;
    while i < |keys|
      invariant i <= |keys|
      invariant forall h :: 0 <= h < i ==> !SameIgnoringCase(keys[h], stem)
    {
      if Lower(keys[i]) == Lower(stem) {
        return Some(index[keys[i]]);
      }
      i := i + 1;
    }
    return None;
  }

  /** The label ids of the index that no processed image matched, in index order. */
  function Unmatched(keys: seq<string>, matched: set<string>): (r: seq<string>)
    ensures |r| <= |keys|
    ensures forall i :: 0 <= i < |r| ==> r[i] in keys && r[i] !in matched
  {
    if keys == [] then []
    else (if keys[0] in matched then [] else [keys[0]]) + Unmatched(keys[1..], matched)
  }

  /** An index key is reported unmatched exactly when it was never matched,
      each at most once. */
  lemma {:induction false} UnmatchedExactly(keys: seq<string>, matched: set<string>)
    ensures forall k :: k in Unmatched(keys, matched) <==> k in keys && k !in matched
    ensures Distinct(keys) ==> Distinct(Unmatched(keys, matched))
  {
    if keys != [] {
      UnmatchedExactly(keys[1..], matched);
      assert forall k :: k in keys <==> k == keys[0] || k in keys[1..];
      if Distinct(keys) {
        assert keys[0] !in keys[1..];
      }
    }
  }

  /** The label ids matched after the worker looked up a row, as the worker
      records them: the row's raw `label_id`, when it is non-empty. */
  function MatchedAsWritten(matched: set<string>, row: Option<ApplicationRow>): set<string> {
    if row.Some? && row.value.labelId != [] then matched + {row.value.labelId} else matched
  }

  /** The label ids matched after the worker looked up a row, recorded under
      the key the row is indexed by. */
  function MatchedAfter(matched: set<string>, row: Option<ApplicationRow>): set<string> {
    if row.Some? then matched + {LabelKey(row.value)} else matched
  }

  /** Recording a found row takes exactly its key off the unmatched report. */
  lemma MatchClearsKey(keys: seq<string>, index: map<string, ApplicationRow>, matched: set<string>, row: ApplicationRow)
    requires IndexWellFormed(keys, index) && row in index.Values
    ensures LabelKey(row) in keys
    ensures forall k :: k in Unmatched(keys, MatchedAfter(matched, Some(row))) <==>
      k in Unmatched(keys, matched) && k != LabelKey(row)
  {
    var k :| k in index && index[k] == row;
    assert LabelKey(row) == k;
    UnmatchedExactly(keys, matched);
    UnmatchedExactly(keys, MatchedAfter(matched, Some(row)));
  }

  /** A single row is indexed under its key. */
  lemma IndexOfOne(row: ApplicationRow)
    ensures IndexKeys([row]) == [LabelKey(row)]
    ensures IndexOf([row]) == map[LabelKey(row) := row]
  {
    assert [row][..0] == [];
  }

  lemma StripPadded()
    ensures Strip(" L1 ") == "L1"
  {
    assert TrimStart(" L1 ") == "L1 ";
  }

  /** A row whose `label_id` has surrounding spaces is found by its image but
      stays on the unmatched report when the raw id is recorded. */
  lemma RawLabelIdStaysUnmatched()
    ensures var row := ApplicationRow(" L1 ", None, None, None, None, None, None);
      && IndexKeys([row]) == ["L1"]
      && IndexOf([row]) == map["L1" := row]
      && Stem("L1.png") == "L1"
      && Unmatched(["L1"], MatchedAsWritten({}, Some(row))) == ["L1"]
  {
    var row := ApplicationRow(" L1 ", None, None, None, None, None, None);
    StripPadded();
    IndexOfOne(row);
    StemDropsExtension("L1", "png");
    assert "L1" + "." + "png" == "L1.png";
    assert MatchedAsWritten({}, Some(row)) == {" L1 "};
    assert "L1" !in {" L1 "};
  }

  // ---------------------------------------------------------------------
  // Upload accounting
  // ---------------------------------------------------------------------

  /** One uploaded file: its name and declared content type (empty when the
      client sent none) and its size in bytes. */
  datatype UploadFile = UploadFile(filename: string, contentType: string, size: nat)

  /** The acknowledgement of one accepted file. */
  datatype FileInfo = FileInfo(fileId: nat, clientIndex: int, filename: string)

  /** An item put on the shared work queue for the workers. */
  datatype WorkItem = WorkItem(jobId: string, fileId: nat, clientIndex: int, filename: string)

  /** The `client_indices` query parameter: absent or empty, not a JSON
      document, or a decoded array. */
  datatype IndicesArg = NoIndices | Unparsable | Indices(values: seq<int>)

  /** Why a request is refused, with the HTTP status the server answers. */
  datatype Rejection =
    | BadTotalFiles
    | TooManyActiveJobs
    | JobNotFound
    | JobCancelled
    | UploadsAlreadyComplete
    | BadClientIndices
    | IndicesLengthMismatch
    | TooManyFiles
    | InvalidFileType(filename: string, contentType: string)
    | FileTooLarge(filename: string)
    | JobTooLarge
  {
    function Status(): nat {
      match this
      case TooManyActiveJobs => 429
      case JobNotFound => 404
      case FileTooLarge(_) | JobTooLarge => 413
      case _ => 400
    }
  }

  /** The upload counters of a job. */
  datatype Counters = Counters(nextFileId: nat, filesReceived: nat, totalBytes: nat)

  /** What a run over the files of one request leaves behind: the counters,
      the files acknowledged so far and the rejection that stopped it, if any. */
  datatype Intake = Intake(counters: Counters, acked: seq<FileInfo>, rejection: Option<Rejection>)

  /** A missing content type is accepted; a given one must be an allowed image type. */
  predicate TypeAllowed(f: UploadFile) {
    f.contentType == [] || f.contentType in AllowedTypes
  }

  /** The stored name: the client's, or `file_<id>` when it sent none. */
  function StoredName(f: UploadFile, fileId: nat): string {
    if f.filename != [] then f.filename else "file_" + Decimal(fileId)
  }

  /** `list(range(base, base + n))`. */
  function Range(base: int, n: nat): (r: seq<int>)
    ensures |r| == n && forall k :: 0 <= k < n ==> r[k] == base + k
  {
    seq(n, k => base + k)
  }

  /** The checks `upload_files` makes before touching any file, giving the
      client indices to use. A request is admitted exactly when the job is
      neither cancelled nor complete, the indices (when sent) parse and give
      one per file, and the files fit in what the job still expects; the
      indices default to the positions after those already received. */
  function AdmitUpload(cancelled: bool, uploadsComplete: bool, received: nat, total: int, n: nat, arg: IndicesArg)
    : (r: Result<seq<int>, Rejection>)
    ensures r.Ok? <==>
      && !cancelled && !uploadsComplete && !arg.Unparsable?
      && (arg.Indices? ==> |arg.values| == n)
      && received + n <= total
    ensures r.Ok? ==> |r.value| == n
    ensures r.Ok? && arg.NoIndices? ==> forall k :: 0 <= k < n ==> r.value[k] == received + k
    ensures r.Ok? && arg.Indices? ==> r.value == arg.values
    ensures cancelled ==> r == Err(JobCancelled)
    ensures !cancelled && uploadsComplete ==> r == Err(UploadsAlreadyComplete)
    ensures !cancelled && !uploadsComplete && arg.Unparsable? ==> r == Err(BadClientIndices)
    ensures !cancelled && !uploadsComplete && arg.Indices? && |arg.values| != n ==> r == Err(IndicesLengthMismatch)
    ensures r == Err(TooManyFiles) <==>
      !cancelled && !uploadsComplete && !arg.Unparsable? && (arg.Indices? ==> |arg.values| == n) && received + n > total
  {
    if cancelled then Err(JobCancelled)
    else if uploadsComplete then Err(UploadsAlreadyComplete)
    else if arg.Unparsable? then Err(BadClientIndices)
    else
      var indices := if arg.Indices? then arg.values else Range(received, n);
      if |indices| != n then Err(IndicesLengthMismatch)
      else if received + n > total then Err(TooManyFiles)
      else Ok(indices)
  }

  /** What one file does to the counters, and its acknowledgement or the
      rejection that ends the request. */
  datatype Step = Step(counters: Counters, result: Result<FileInfo, Rejection>)

  /** One pass of `upload_files`' per-file loop: a file of a disallowed type
      is rejected before it gets an id; otherwise it takes the next id, and
      is rejected if it is over the per-file limit, or if adding its size
      puts the job over its byte limit (the size stays counted); otherwise
      it is received and acknowledged. */
  function Admit(f: UploadFile, clientIndex: int, c: Counters): (r: Step)
    ensures r.result.Ok? <==> TypeAllowed(f) && f.size <= MaxFileSize && c.totalBytes + f.size <= MaxJobBytes
    ensures r.result.Ok? ==> r.result.value.fileId == c.nextFileId && r.result.value.clientIndex == clientIndex
    ensures r.counters.filesReceived == c.filesReceived + (if r.result.Ok? then 1 else 0)
    ensures r.counters.nextFileId == c.nextFileId + (if TypeAllowed(f) then 1 else 0)
    ensures r.counters.totalBytes == c.totalBytes + (if TypeAllowed(f) && f.size <= MaxFileSize then f.size else 0)
  {
    if !TypeAllowed(f) then Step(c, Err(InvalidFileType(f.filename, f.contentType)))
    else
      var id := c.nextFileId;
      var name := StoredName(f, id);
      if f.size > MaxFileSize then Step(c.(nextFileId := id + 1), Err(FileTooLarge(name)))
      else
        var bytes := c.totalBytes + f.size;
        if bytes > MaxJobBytes then Step(Counters(id + 1, c.filesReceived, bytes), Err(JobTooLarge))
        else Step(Counters(id + 1, c.filesReceived + 1, bytes), Ok(FileInfo(id, clientIndex, name)))
  }

  /** The per-file loop over a whole request, up to the first rejection. */
  function Run(files: seq<UploadFile>, indices: seq<int>, c: Counters): (out: Intake)
    requires |indices| == |files|
    ensures |out.acked| <= |files|
    ensures out.rejection.Some? ==> |out.acked| < |files|
    decreases |files|
  {
    if files == [] then Intake(c, [], None)
    else
      var step := Admit(files[0], indices[0], c);
      if step.result.Err? then Intake(step.counters, [], Some(step.result.error))
      else
        var rest := Run(files[1..], indices[1..], step.counters);
        rest.(acked := [step.result.value] + rest.acked)
  }

  /** Whether a rejection is one raised after the file took an id. */
  predicate TookId(r: Option<Rejection>) {
    r.Some? && (r.value.FileTooLarge? || r.value.JobTooLarge?)
  }

  /** Whether the first file of a request is acknowledged from counters `c`. */
  predicate Accepts(f: UploadFile, c: Counters) {
    TypeAllowed(f) && f.size <= MaxFileSize && c.totalBytes + f.size <= MaxJobBytes
  }

  /** The counters after acknowledging `f`. */
  function After(f: UploadFile, c: Counters): Counters {
    Counters(c.nextFileId + 1, c.filesReceived + 1, c.totalBytes + f.size)
  }

  lemma RunStep(files: seq<UploadFile>, indices: seq<int>, c: Counters)
    requires |indices| == |files| && files != [] && Accepts(files[0], c)
    ensures var rest := Run(files[1..], indices[1..], After(files[0], c));
      Run(files, indices, c) ==
        rest.(acked := [FileInfo(c.nextFileId, indices[0], StoredName(files[0], c.nextFileId))] + rest.acked)
  {
  }

  lemma RunStop(files: seq<UploadFile>, indices: seq<int>, c: Counters)
    requires |indices| == |files| && files != [] && !Accepts(files[0], c)
    ensures Run(files, indices, c).acked == [] && Run(files, indices, c).rejection.Some?
  {
  }

  /** A request is refused part-way exactly when not every file was acknowledged. */
  lemma {:induction false} RunStopsOnlyOnRejection(files: seq<UploadFile>, indices: seq<int>, c: Counters)
    requires |indices| == |files|
    ensures Run(files, indices, c).rejection.None? <==> |Run(files, indices, c).acked| == |files|
  {
    if files != [] {
      if Accepts(files[0], c) {
        RunStep(files, indices, c);
        RunStopsOnlyOnRejection(files[1..], indices[1..], After(files[0], c));
      } else {
        RunStop(files, indices, c);
      }
    }
  }

  /** The acknowledged files are a prefix of the request, with consecutive
      ids from the job's next id, their client indices and stored names. */
  lemma {:induction false} RunAcknowledges(files: seq<UploadFile>, indices: seq<int>, c: Counters)
    requires |indices| == |files|
    ensures var acked := Run(files, indices, c).acked;
      forall k :: 0 <= k < |acked| ==>
        acked[k] == FileInfo(c.nextFileId + k, indices[k], StoredName(files[k], c.nextFileId + k))
  {
    if files != [] {
      if Accepts(files[0], c) {
        var c' := After(files[0], c);
        RunStep(files, indices, c);
        RunAcknowledges(files[1..], indices[1..], c');
        var rest := Run(files[1..], indices[1..], c').acked;
        var acked := Run(files, indices, c).acked;
        assert acked[0] == FileInfo(c.nextFileId + 0, indices[0], StoredName(files[0], c.nextFileId + 0));
        forall k | 1 <= k < |acked|
          ensures acked[k] == FileInfo(c.nextFileId + k, indices[k], StoredName(files[k], c.nextFileId + k))
        {
          var j := k - 1;
          assert acked[k] == rest[j];
          assert rest[j] == FileInfo(c'.nextFileId + j, indices[1..][j], StoredName(files[1..][j], c'.nextFileId + j));
        }
      } else {
        RunStop(files, indices, c);
      }
    }
  }

  /** The received counter grows by the acknowledged files, and the id
      counter by those plus the file, if any, rejected after taking an id. */
  lemma {:induction false} RunCounts(files: seq<UploadFile>, indices: seq<int>, c: Counters)
    requires |indices| == |files|
    ensures var out := Run(files, indices, c);
      && out.counters.filesReceived == c.filesReceived + |out.acked|
      && out.counters.nextFileId == c.nextFileId + |out.acked| + (if TookId(out.rejection) then 1 else 0)
  {
    if files != [] && Accepts(files[0], c) {
      RunStep(files, indices, c);
      RunCounts(files[1..], indices[1..], After(files[0], c));
    }
  }

  /** The total size of a list of files. */
  function TotalSize(files: seq<UploadFile>): nat {
    if files == [] then 0 else files[0].size + TotalSize(files[1..])
  }

  /** The byte counter grows by the sizes of the acknowledged files, plus
      that of the file that put the job over its limit. */
  lemma {:induction false} RunBytes(files: seq<UploadFile>, indices: seq<int>, c: Counters)
    requires |indices| == |files|
    ensures var out := Run(files, indices, c);
      out.counters.totalBytes ==
        c.totalBytes + TotalSize(files[..|out.acked|])
        + (if out.rejection == Some(JobTooLarge) then files[|out.acked|].size else 0)
  {
    if files != [] {
      if Accepts(files[0], c) {
        var c' := After(files[0], c);
        RunStep(files, indices, c);
        RunBytes(files[1..], indices[1..], c');
        var n := |Run(files[1..], indices[1..], c').acked|;
        assert files[..n + 1][1..] == files[1..][..n];
      } else {
        RunStop(files, indices, c);
        assert files[..0] == [];
      }
    }
  }

  /** Every acknowledged file kept the job within its byte limit. */
  lemma {:induction false} RunWithinLimit(files: seq<UploadFile>, indices: seq<int>, c: Counters)
    requires |indices| == |files|
    ensures var n := |Run(files, indices, c).acked|;
      n > 0 ==> c.totalBytes + TotalSize(files[..n]) <= MaxJobBytes
  {
    if files != [] && Accepts(files[0], c) {
      var c' := After(files[0], c);
      RunStep(files, indices, c);
      RunWithinLimit(files[1..], indices[1..], c');
      var n := |Run(files[1..], indices[1..], c').acked|;
      assert files[..n + 1][1..] == files[1..][..n];
    }
  }

  /** Once a job is over its byte limit, no further file is accepted. */
  lemma OverLimitAcceptsNothing(files: seq<UploadFile>, indices: seq<int>, c: Counters)
    requires |indices| == |files| && files != []
    requires c.totalBytes > MaxJobBytes
    ensures Run(files, indices, c).acked == []
    ensures Run(files, indices, c).rejection.Some?
  {
  }

  /** The key list holds each indexed key once, and each row is filed under its own key. */
  ghost predicate IndexWellFormed(keys: seq<string>, index: map<string, ApplicationRow>) {
    && Distinct(keys)
    && (forall k :: k in keys <==> k in index)
    && (forall k :: k in index ==> LabelKey(index[k]) == k)
  }

  /** The queue items for the acknowledged files of job `jobId`, in order. */
  function WorkItems(jobId: string, acked: seq<FileInfo>): (r: seq<WorkItem>)
    ensures |r| == |acked|
    ensures forall k :: 0 <= k < |acked| ==>
      r[k] == WorkItem(jobId, acked[k].fileId, acked[k].clientIndex, acked[k].filename)
  {
    if acked == [] then []
    else [WorkItem(jobId, acked[0].fileId, acked[0].clientIndex, acked[0].filename)] + WorkItems(jobId, acked[1..])
  }

  lemma WorkItemsSnoc(jobId: string, acked: seq<FileInfo>, x: FileInfo)
    ensures WorkItems(jobId, acked + [x]) == WorkItems(jobId, acked) + [WorkItem(jobId, x.fileId, x.clientIndex, x.filename)]
  {
    var a := WorkItems(jobId, acked + [x]);
    var b := WorkItems(jobId, acked) + [WorkItem(jobId, x.fileId, x.clientIndex, x.filename)];
    assert forall k :: 0 <= k < |a| ==> a[k] == b[k];
  }

  /** A run that continues after `acked` files were already acknowledged. */
  function Resume(acked: seq<FileInfo>, rest: Intake): Intake {
    rest.(acked := acked + rest.acked)
  }

  /** What one `upload_files` request leaves behind: the job's counters
      and completion flag, the files acknowledged and the response. */
  datatype Upload = Upload(counters: Counters, uploadsComplete: bool, acked: seq<FileInfo>,
                           response: Result<seq<FileInfo>, Rejection>)

  /** One `upload_files` request against a job that exists: the admission
      checks, the per-file loop, and the completion flag set once every
      declared file has arrived. */
  function UploadOutcome(cancelled: bool, uploadsComplete: bool, total: int, c: Counters,
                         files: seq<UploadFile>, arg: IndicesArg): (r: Upload)
    ensures var a := AdmitUpload(cancelled, uploadsComplete, c.filesReceived, total, |files|, arg);
      a.Err? ==> r == Upload(c, uploadsComplete, [], Err(a.error))
    ensures r.counters.filesReceived == c.filesReceived + |r.acked|
    ensures r.response.Ok? <==>
      AdmitUpload(cancelled, uploadsComplete, c.filesReceived, total, |files|, arg).Ok? && |r.acked| == |files|
    ensures r.response.Ok? ==> r.response.value == r.acked
    ensures r.uploadsComplete <==> uploadsComplete || (r.response.Ok? && r.counters.filesReceived >= total)
  {
    match AdmitUpload(cancelled, uploadsComplete, c.filesReceived, total, |files|, arg)
    case Err(e) => Upload(c, uploadsComplete, [], Err(e))
    case Ok(indices) =>
      var out := Run(files, indices, c);
      RunCounts(files, indices, c);
      RunStopsOnlyOnRejection(files, indices, c);
      Upload(out.counters, out.rejection.None? && out.counters.filesReceived >= total, out.acked,
             if out.rejection.Some? then Err(out.rejection.value) else Ok(out.acked))
  }

  /** A request never takes a job past its declared file count; each
      acknowledged file is counted as received; the job is marked complete
      only when the whole request went through and the count is reached; a
      successful response lists every file of the request; and a request
      refused at admission changes nothing. */
  lemma UploadKeepsCount(cancelled: bool, uploadsComplete: bool, total: int, c: Counters,
                         files: seq<UploadFile>, arg: IndicesArg)
    requires c.filesReceived <= total
    ensures var o := UploadOutcome(cancelled, uploadsComplete, total, c, files, arg);
      && o.counters.filesReceived == c.filesReceived + |o.acked| <= total
      && (o.uploadsComplete && !uploadsComplete ==> o.counters.filesReceived == total && o.response.Ok?)
      && (o.response.Ok? ==> |o.acked| == |files| && o.response.value == o.acked)
      && (|o.acked| < |files| ==> o.response.Err?)
      && (AdmitUpload(cancelled, uploadsComplete, c.filesReceived, total, |files|, arg).Err? ==>
            o.counters == c && o.uploadsComplete == uploadsComplete && o.acked == [])
  {
    var a := AdmitUpload(cancelled, uploadsComplete, c.filesReceived, total, |files|, arg);
    if a.Ok? {
      RunCounts(files, a.value, c);
      RunStopsOnlyOnRejection(files, a.value, c);
    }
  }

  /** How a run resumed at file `i` continues after that file's step. */
  lemma ResumeStep(acked: seq<FileInfo>, files: seq<UploadFile>, indices: seq<int>, i: nat, c: Counters)
    requires |indices| == |files| && i < |files|
    ensures var step := Admit(files[i], indices[i], c);
      Resume(acked, Run(files[i..], indices[i..], c)) ==
        if step.result.Err? then Intake(step.counters, acked, Some(step.result.error))
        else Resume(acked + [step.result.value], Run(files[i + 1..], indices[i + 1..], step.counters))
  {
    assert files[i..][0] == files[i] && indices[i..][0] == indices[i];
    assert files[i..][1..] == files[i + 1..] && indices[i..][1..] == indices[i + 1..];
    var step := Admit(files[i], indices[i], c);
    if step.result.Ok? {
      var rest := Run(files[i + 1..], indices[i + 1..], step.counters);
      assert acked + ([step.result.value] + rest.acked) == acked + [step.result.value] + rest.acked;
    }
  }

  // ---------------------------------------------------------------------
  // Jobs and the job table
  // ---------------------------------------------------------------------

  /** One batch job: its declared size, upload counters and flags, the
      application-row index built when it was created (keys in insertion
      order) and the label ids matched so far. */
  class Job {
    const jobId: string
    const totalFiles: int
    const indexKeys: seq<string>
    const index: map<string, ApplicationRow>
    var uploadsComplete: bool
    var cancelled: bool
    var filesReceived: nat
    var filesProcessed: nat
    var totalBytes: nat
    var nextFileId: nat
    var matchedLabelIds: set<string>

    ghost predicate Valid()
      reads this
    {
      && 1 <= totalFiles <= MaxFilesPerJob
      && filesProcessed <= filesReceived <= totalFiles
      && filesReceived <= nextFileId
      && IndexWellFormed(indexKeys, index)
    }

    constructor (jobId: string, totalFiles: int, rows: seq<ApplicationRow>,
                 keys: seq<string>, index: map<string, ApplicationRow>)
      requires 1 <= totalFiles <= MaxFilesPerJob
      requires keys == IndexKeys(rows) && index == IndexOf(rows)
      ensures Valid()
      ensures this.jobId == jobId && this.totalFiles == totalFiles
      ensures this.indexKeys == keys && this.index == index
      ensures !uploadsComplete && !cancelled
      ensures filesReceived == 0 && filesProcessed == 0 && totalBytes == 0 && nextFileId == 0
      ensures matchedLabelIds == {}
    {
      this.jobId := jobId;
      this.totalFiles := totalFiles;
      this.indexKeys := keys;
      this.index := index;
      uploadsComplete := false;
      cancelled := false;
      filesReceived := 0;
      filesProcessed := 0;
      totalBytes := 0;
      nextFileId := 0;
      matchedLabelIds := {};
      IndexKeysMatchIndex(rows);
      IndexFilesByKey(rows);
    }

    /** A job counts against the concurrency limit until it is cancelled,
        or its uploads are complete and every received file is processed. */
    predicate IsActive()
      reads this
    {
      !cancelled && !(uploadsComplete && filesProcessed == filesReceived)
    }

    function Counts(): Counters
      reads this
    {
      Counters(nextFileId, filesReceived, totalBytes)
    }

    /** The worker's match bookkeeping for one image, as the worker does it:
        look the row up by the image's filename and record its raw
        `label_id`, when non-empty. */
    method RecordMatchAsWritten(filename: string) returns (row: Option<ApplicationRow>)
      requires Valid()
      modifies this
      ensures Valid()
      ensures row.Some? ==> row.value in index.Values
      ensures Stem(filename) in index ==> row == Some(index[Stem(filename)])
      ensures matchedLabelIds == MatchedAsWritten(old(matchedLabelIds), row)
      ensures Counts() == old(Counts()) && filesProcessed == old(filesProcessed)
      ensures uploadsComplete == old(uploadsComplete) && cancelled == old(cancelled)
    {
      row := MatchApplicationRow(indexKeys, index, filename);
      matchedLabelIds := MatchedAsWritten(matchedLabelIds, row);
    }

    /** The worker's match bookkeeping for one image, recording the matched
        row under its index key: that key leaves the unmatched report and no
        other key does. */
    method RecordMatch(filename: string) returns (row: Option<ApplicationRow>)
      requires Valid()
      modifies this
      ensures Valid()
      ensures row.Some? ==> row.value in index.Values
      ensures Stem(filename) in index ==> row == Some(index[Stem(filename)])
      ensures matchedLabelIds == MatchedAfter(old(matchedLabelIds), row)
      ensures row.Some? ==> LabelKey(row.value) in indexKeys && LabelKey(row.value) !in Unmatched(indexKeys, matchedLabelIds)
      ensures Counts() == old(Counts()) && filesProcessed == old(filesProcessed)
      ensures uploadsComplete == old(uploadsComplete) && cancelled == old(cancelled)
    {
      row := MatchApplicationRow(indexKeys, index, filename);
      if row.Some? {
        MatchClearsKey(indexKeys, index, matchedLabelIds, row.value);
      }
      matchedLabelIds := MatchedAfter(matchedLabelIds, row);
    }
  }

  /** The `done` event's `unmatched_csv_rows`: the index keys no image
      matched, in index order, omitted when there are none. */
  function DoneReport(keys: seq<string>, matched: set<string>): (r: Option<seq<string>>)
    ensures r.None? <==> forall k :: k in keys ==> k in matched
    ensures r.Some? ==> forall k :: k in r.value <==> k in keys && k !in matched
    ensures r.Some? && Distinct(keys) ==> Distinct(r.value)
  {
    UnmatchedExactly(keys, matched);
    if keys == [] then None
    else
      var u := Unmatched(keys, matched);
      if u == [] then
        assert forall k :: k in keys && k !in matched ==> k in u;
        None
      else
        assert u[0] in u;
        Some(u)
  }

  /** One turn of the result stream: the client went away, the job is done
      (with its unmatched label ids, if any), or the stream keeps waiting. */
  datatype StreamEvent = Disconnected | Done(unmatched: Option<seq<string>>) | Waiting

  /** The job created: its id and the label ids reported as duplicates. */
  datatype JobCreated = JobCreated(jobId: string, duplicateLabelIds: seq<string>)

  /** The process-wide state: the job table and the shared work queue. */
  class Server {
    var jobs: map<string, Job>
    var workQueue: seq<WorkItem>

    /** The ids of the active jobs. */
    function ActiveIds(): set<string>
      reads this, jobs.Values
    {
      set id | id in jobs && jobs[id].IsActive()
    }

    /** `_active_job_count`: no more than the jobs in the table, and zero
        exactly when none of them is active. */
    function ActiveJobCount(): (n: nat)
      reads this, jobs.Values
      ensures n <= |jobs|
      ensures n == 0 <==> forall id :: id in jobs ==> !jobs[id].IsActive()
    {
      SubsetCardinality(ActiveIds(), jobs.Keys);
      assert forall id :: id in jobs && jobs[id].IsActive() ==> id in ActiveIds();
      |ActiveIds()|
    }

    ghost predicate Valid()
      reads this, jobs.Values
    {
      && (forall id :: id in jobs ==> jobs[id].Valid())
      && ActiveJobCount() <= MaxConcurrentJobs
    }

    constructor ()
      ensures Valid() && jobs == map[] && workQueue == []
    {
      jobs := map[];
      workQueue := [];
    }

    /** Enter a new active job in the table, keeping at most three active. */
    method Register(jobId: string, job: Job)
      requires Valid() && job.Valid() && job.IsActive()
      requires ActiveJobCount() < MaxConcurrentJobs
      requires job !in jobs.Values
      modifies this
      ensures Valid()
      ensures jobs == old(jobs)[jobId := job] && workQueue == old(workQueue)
    {
      ghost var before := ActiveIds();
      jobs := jobs[jobId := job];
      assert ActiveIds() <= before + {jobId} by {
        forall id | id in ActiveIds() && id != jobId ensures id in before {
          assert id in old(jobs) && jobs[id] == old(jobs)[id];
        }
      }
      SubsetCardinality(ActiveIds(), before + {jobId});
      assert |before + {jobId}| <= |before| + 1;
    }

    /** `create_job`: refuse a size outside 1..300, refuse when three jobs
        are already active, and otherwise index the rows and register a
        fresh job under `jobId`. */
    method CreateJob(jobId: string, totalFiles: int, rows: seq<ApplicationRow>) returns (r: Result<JobCreated, Rejection>)
      requires Valid()
      modifies this
      ensures Valid()
      ensures workQueue == old(workQueue)
      ensures !(1 <= totalFiles <= MaxFilesPerJob) ==> r == Err(BadTotalFiles) && jobs == old(jobs)
      ensures 1 <= totalFiles <= MaxFilesPerJob && old(ActiveJobCount()) >= MaxConcurrentJobs ==>
        r == Err(TooManyActiveJobs) && jobs == old(jobs)
      ensures 1 <= totalFiles <= MaxFilesPerJob && old(ActiveJobCount()) < MaxConcurrentJobs ==>
        && r == Ok(JobCreated(jobId, Duplicates(rows)))
        && jobId in jobs && fresh(jobs[jobId]) && jobs == old(jobs)[jobId := jobs[jobId]]
        && jobs[jobId].totalFiles == totalFiles
        && jobs[jobId].indexKeys == IndexKeys(rows) && jobs[jobId].index == IndexOf(rows)
        && jobs[jobId].IsActive() && jobs[jobId].Counts() == Counters(0, 0, 0)
        && jobs[jobId].matchedLabelIds == {}
    {
      if totalFiles < 1 || totalFiles > MaxFilesPerJob {
        return Err(BadTotalFiles);
      }
      if ActiveJobCount() >= MaxConcurrentJobs {
        return Err(TooManyActiveJobs);
      }
      var keys, index, duplicates := BuildIndex(rows);
      var job := new Job(jobId, totalFiles, rows, keys, index);
      Register(jobId, job);
      return Ok(JobCreated(jobId, duplicates));
    }

    /** One pass of `upload_files`' per-file loop: check the type, take an
        id, check the file and job byte limits, queue the file and count it
        received. */
    method AcceptFile(jobId: string, job: Job, f: UploadFile, clientIndex: int) returns (res: Result<FileInfo, Rejection>)
      modifies this, job
      ensures Step(job.Counts(), res) == Admit(f, clientIndex, old(job.Counts()))
      ensures workQueue == old(workQueue) +
        (if res.Ok? then [WorkItem(jobId, res.value.fileId, res.value.clientIndex, res.value.filename)] else [])
      ensures jobs == old(jobs)
      ensures job.uploadsComplete == old(job.uploadsComplete) && job.cancelled == old(job.cancelled)
      ensures job.filesProcessed == old(job.filesProcessed) && job.matchedLabelIds == old(job.matchedLabelIds)
    {
      if f.contentType != [] && f.contentType !in AllowedTypes {
        return Err(InvalidFileType(f.filename, f.contentType));
      }
      var fileId := job.nextFileId;
      job.nextFileId := job.nextFileId + 1;
      var name := if f.filename != [] then f.filename else "file_" + Decimal(fileId);
      if f.size > MaxFileSize {
        return Err(FileTooLarge(name));
      }
      job.totalBytes := job.totalBytes + f.size;
      if job.totalBytes > MaxJobBytes {
        return Err(JobTooLarge);
      }
      workQueue := workQueue + [WorkItem(jobId, fileId, clientIndex, name)];
      job.filesReceived := job.filesReceived + 1;
      return Ok(FileInfo(fileId, clientIndex, name));
    }

    /** `upload_files`' loop over the files of one request. The first
        rejected file ends the request; what it and the files before it
        changed stays changed. */
    method AcceptFiles(jobId: string, job: Job, files: seq<UploadFile>, indices: seq<int>)
      returns (acked: seq<FileInfo>, rejection: Option<Rejection>)
      requires |indices| == |files|
      modifies this, job
      ensures jobs == old(jobs)
      ensures Intake(job.Counts(), acked, rejection) == Run(files, indices, old(job.Counts()))
      ensures workQueue == old(workQueue) + WorkItems(jobId, acked)
      ensures job.uploadsComplete == old(job.uploadsComplete) && job.cancelled == old(job.cancelled)
      ensures job.filesProcessed == old(job.filesProcessed) && job.matchedLabelIds == old(job.matchedLabelIds)
    {
      ghost var c0 := job.Counts();
      acked := [];
      var i := 0;
      while i < |files|
        invariant i <= |files|
        invariant jobs == old(jobs)
        invariant Run(files, indices, c0) == Resume(acked, Run(files[i..], indices[i..], job.Counts()))
        invariant workQueue == old(workQueue) + WorkItems(jobId, acked)
        invariant job.uploadsComplete == old(job.uploadsComplete) && job.cancelled == old(job.cancelled)
        invariant job.filesProcessed == old(job.filesProcessed) && job.matchedLabelIds == old(job.matchedLabelIds)
      {
        ResumeStep(acked, files, indices, i, job.Counts());
        var res := AcceptFile(jobId, job, files[i], indices[i]);
        if res.Err? {
          return acked, Some(res.error);
        }
        WorkItemsSnoc(jobId, acked, res.value);
        acked := acked + [res.value];
        i := i + 1;
      }
      assert files[i..] == [] && indices[i..] == [];
      return acked, None;
    }

    /** `upload_files`: refuse an unknown, cancelled or completed job, bad
        or mismatched client indices, and more files than the job still
        expects, all before any change; then run the per-file loop, and mark
        the uploads complete once every declared file has been received. */
    method UploadFiles(jobId: string, files: seq<UploadFile>, arg: IndicesArg) returns (r: Result<seq<FileInfo>, Rejection>)
      requires Valid()
      modifies this, if jobId in jobs then {jobs[jobId]} else {}
      ensures Valid()
      ensures jobs == old(jobs)
      ensures jobId !in jobs ==> r == Err(JobNotFound) && workQueue == old(workQueue)
      ensures jobId in jobs ==>
        var job := jobs[jobId];
        var o := UploadOutcome(old(job.cancelled), old(job.uploadsComplete), job.totalFiles, old(job.Counts()), files, arg);
        && job.Counts() == o.counters
        && job.uploadsComplete == o.uploadsComplete
        && r == o.response
        && workQueue == old(workQueue) + WorkItems(jobId, o.acked)
      ensures jobId in jobs ==>
        && jobs[jobId].cancelled == old(jobs[jobId].cancelled)
        && jobs[jobId].filesProcessed == old(jobs[jobId].filesProcessed)
        && jobs[jobId].matchedLabelIds == old(jobs[jobId].matchedLabelIds)
    {
      if jobId !in jobs {
        return Err(JobNotFound);
      }
      var job := jobs[jobId];
      ghost var before := ActiveIds();
      r := UploadTo(jobId, job, files, arg);
      forall id | id in jobs ensures jobs[id].Valid() {
        if jobs[id] != job {
          assert jobs[id] in jobs.Values;
          assert old(jobs[id].Valid());
        }
      }
      forall id | id in ActiveIds() ensures id in before {
        if jobs[id] != job {
          assert jobs[id] in jobs.Values;
          assert old(jobs[id].IsActive());
        }
      }
      SubsetCardinality(ActiveIds(), before);
    }

    /** `upload_files` on one job: the job stays valid and does not become
        active again. */
    method UploadTo(jobId: string, job: Job, files: seq<UploadFile>, arg: IndicesArg) returns (r: Result<seq<FileInfo>, Rejection>)
      requires job.Valid()
      modifies this, job
      ensures job.Valid() && (job.IsActive() ==> old(job.IsActive()))
      ensures jobs == old(jobs)
      ensures var o := UploadOutcome(old(job.cancelled), old(job.uploadsComplete), job.totalFiles, old(job.Counts()), files, arg);
        && job.Counts() == o.counters
        && job.uploadsComplete == o.uploadsComplete
        && r == o.response
        && workQueue == old(workQueue) + WorkItems(jobId, o.acked)
      ensures job.cancelled == old(job.cancelled) && job.filesProcessed == old(job.filesProcessed)
      ensures job.matchedLabelIds == old(job.matchedLabelIds)
    {
      var admitted := AdmitUpload(job.cancelled, job.uploadsComplete, job.filesReceived, job.totalFiles, |files|, arg);
      if admitted.Err? {
        return Err(admitted.error);
      }
      var indices := admitted.value;
      var acked, rejection := AcceptFiles(jobId, job, files, indices);
      RunCounts(files, indices, old(job.Counts()));
      if rejection.None? && job.filesReceived >= job.totalFiles {
        job.uploadsComplete := true;
      }
      if rejection.Some? {
        return Err(rejection.value);
      }
      return Ok(acked);
    }

    /** `complete_job`: mark the job's uploads complete, whatever was
        received; completing twice changes nothing, and completing never
        raises the number of active jobs. */
    method CompleteJob(jobId: string) returns (r: Result<(), Rejection>)
      requires Valid()
      modifies if jobId in jobs then {jobs[jobId]} else {}
      ensures Valid()
      ensures ActiveJobCount() <= old(ActiveJobCount())
      ensures jobId !in jobs ==> r == Err(JobNotFound)
      ensures jobId in jobs ==> r == Ok(()) && jobs[jobId].uploadsComplete
      ensures jobId in jobs ==>
        && jobs[jobId].Counts() == old(jobs[jobId].Counts())
        && jobs[jobId].cancelled == old(jobs[jobId].cancelled)
        && jobs[jobId].filesProcessed == old(jobs[jobId].filesProcessed)
        && jobs[jobId].matchedLabelIds == old(jobs[jobId].matchedLabelIds)
      ensures jobId in jobs && old(jobs[jobId].uploadsComplete) ==> unchanged(jobs[jobId])
    {
      if jobId !in jobs {
        return Err(JobNotFound);
      }
      var job := jobs[jobId];
      ghost var before := ActiveIds();
      job.uploadsComplete := true;
      forall id | id in jobs ensures jobs[id].Valid() {
        if jobs[id] != job {
          assert jobs[id] in jobs.Values;
          assert old(jobs[id].Valid());
        }
      }
      forall id | id in ActiveIds() ensures id in before {
        if jobs[id] != job {
          assert jobs[id] in jobs.Values;
          assert old(jobs[id].IsActive());
        }
      }
      SubsetCardinality(ActiveIds(), before);
      return Ok(());
    }

    /** One turn of `stream_results`' loop: a disconnected client cancels the
        job; otherwise the stream ends with the `done` event once uploads are
        complete, every received file is processed and no result is pending,
        and keeps waiting before that. */
    method StreamStep(jobId: string, disconnected: bool, queueEmpty: bool) returns (r: Result<StreamEvent, Rejection>)
      requires Valid()
      modifies if jobId in jobs then {jobs[jobId]} else {}
      ensures Valid()
      ensures ActiveJobCount() <= old(ActiveJobCount())
      ensures jobId !in jobs ==> r == Err(JobNotFound)
      ensures jobId in jobs && disconnected ==>
        && r == Ok(Disconnected)
        && jobs[jobId].cancelled && !jobs[jobId].IsActive()
        && jobs[jobId].Counts() == old(jobs[jobId].Counts())
        && jobs[jobId].uploadsComplete == old(jobs[jobId].uploadsComplete)
        && jobs[jobId].filesProcessed == old(jobs[jobId].filesProcessed)
        && jobs[jobId].matchedLabelIds == old(jobs[jobId].matchedLabelIds)
      ensures jobId in jobs && !disconnected ==> unchanged(jobs[jobId])
      ensures jobId in jobs && !disconnected ==>
        (r == Ok(Done(DoneReport(jobs[jobId].indexKeys, jobs[jobId].matchedLabelIds))) <==>
          jobs[jobId].uploadsComplete && jobs[jobId].filesProcessed >= jobs[jobId].filesReceived && queueEmpty)
      ensures jobId in jobs && !disconnected ==> r.Ok? && !r.value.Disconnected?
      ensures r.Ok? && r.value.Done? ==> r == Ok(Done(DoneReport(jobs[jobId].indexKeys, jobs[jobId].matchedLabelIds)))
    {
      if jobId !in jobs {
        return Err(JobNotFound);
      }
      var job := jobs[jobId];
      if disconnected {
        ghost var before := ActiveIds();
        job.cancelled := true;
        forall id | id in jobs ensures jobs[id].Valid() {
          if jobs[id] != job {
            assert jobs[id] in jobs.Values;
            assert old(jobs[id].Valid());
          }
        }
        forall id | id in ActiveIds() ensures id in before {
          if jobs[id] != job {
            assert jobs[id] in jobs.Values;
            assert old(jobs[id].IsActive());
          }
        }
        SubsetCardinality(ActiveIds(), before);
        return Ok(Disconnected);
      }
      if job.uploadsComplete && job.filesProcessed >= job.filesReceived && queueEmpty {
        return Ok(Done(DoneReport(job.indexKeys, job.matchedLabelIds)));
      }
      return Ok(Waiting);
    }
  }
}
