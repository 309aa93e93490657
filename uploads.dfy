/** The request handler's per-file loop: reshape `$_FILES['files']`, check each
    upload in a fixed order, grade the ones that pass and collect one
    submission per file, plus the rows stored for the graded ones.

    What the file system, the extraction and the remote call do for each file
    is the parameter `FileEnv`. */
module Uploads {
  import opened Text
  import opened Words
  import opened Grading

  // ---------------------------------------------------------------- reArrayFiles

  /** `$_FILES['files']`: one upload, or one list per field for several */
  datatype FilesField<V> =
    | OneUpload(fields: map<string, V>)           // `$files['name']` is not an array
    | SeveralUploads(columns: map<string, seq<V>>) // field name to one value per upload

  /** the field lists PHP builds for several uploads: a `name` list and as many
      values in every list as there are names */
  predicate WellFormedColumns<V>(columns: map<string, seq<V>>)
  {
    "name" in columns && forall k :: k in columns ==> |columns[k]| >= |columns["name"]|
  }

  /** `reArrayFiles($files)`: per upload, a map from field name to that upload's value */
  method ReArrayFiles<V>(files: FilesField<V>, keys: seq<string>) returns (fileArray: seq<map<string, V>>)
    requires files.SeveralUploads? ==> WellFormedColumns(files.columns)
    requires files.SeveralUploads? ==> forall k :: k in keys <==> k in files.columns
    ensures files.OneUpload? ==> fileArray == [files.fields]
    ensures files.SeveralUploads? ==>
      |fileArray| == |files.columns["name"]| &&
      forall i :: 0 <= i < |fileArray| ==>
        fileArray[i].Keys == files.columns.Keys &&
        forall k :: k in files.columns ==> fileArray[i][k] == files.columns[k][i]
  {
    if files.OneUpload? {
      return [files.fields];
    }
    var columns := files.columns;
    var fileCount := |columns["name"]|;
    fileArray := [];
    var i := 0;
    while i < fileCount
      invariant 0 <= i <= fileCount
      invariant |fileArray| == i
      invariant forall j :: 0 <= j < i ==>
        fileArray[j].Keys == columns.Keys && forall k :: k in columns ==> fileArray[j][k] == columns[k][j]
      decreases fileCount - i
    {
      var row: map<string, V> := map[];
      var n := 0;
      while n < |keys|
        invariant 0 <= n <= |keys|
        invariant row.Keys == set m | 0 <= m < n :: keys[m]
        invariant forall k :: k in row ==> k in columns && row[k] == columns[k][i]
        decreases |keys| - n
      {
        var key := keys[n];
        row := row[key := columns[key][i]];
        n := n + 1;
      }
      fileArray := fileArray + [row];
      i := i + 1;
    }
  }

  // ---------------------------------------------------------------- the checks

  const MAX_FILE_SIZE: int := 5 * 1024 * 1024
  const ALLOWED_EXTENSIONS: seq<string> := ["doc", "docx", "pdf", "txt"]

  const UPLOAD_ERR_OK: int := 0
  const UNKNOWN_UPLOAD_ERROR: string := "Unknown upload error."
  const TOO_LARGE: string := "File is too large. Maximum size is 5 MB."
  const INVALID_TYPE: string := "Invalid file type. Allowed types: " + Join(", ", ALLOWED_EXTENSIONS)
  const SAVE_FAILED: string := "Failed to save the file."
  const PROCESSING_ERROR: string := "Error processing file: "

  /** `getUploadErrorMessage($errorCode)` */
  function UploadErrorMessage(code: int): (m: string)
    ensures m == UNKNOWN_UPLOAD_ERROR <==> !(code in {1, 2, 3, 4, 6, 7, 8})
  {
    match code
    case 1 => "The uploaded file exceeds the upload_max_filesize directive in php.ini."
    case 2 => "The uploaded file exceeds the MAX_FILE_SIZE directive in the HTML form."
    case 3 => "The uploaded file was only partially uploaded."
    case 4 => "No file was uploaded."
    case 6 => "Missing a temporary folder."
    case 7 => "Failed to write file to disk."
    case 8 => "A PHP extension stopped the file upload."
    case _ => UNKNOWN_UPLOAD_ERROR
  }

  /** the last position of c in s, if any */
  function LastIndexOf(s: string, c: char): (r: Option<nat>)
    ensures r.Some? ==> r.value < |s| && s[r.value] == c && forall k :: r.value < k < |s| ==> s[k] != c
    ensures r.None? ==> forall k :: 0 <= k < |s| ==> s[k] != c
    decreases |s|
  {
    if s == [] then None
    else if s[|s| - 1] == c then Some(|s| - 1)
    else LastIndexOf(s[..|s| - 1], c)
  }

  /** `pathinfo($name, PATHINFO_EXTENSION)`: after the last `.` of the part after the last `/` */
  function Extension(name: string): (ext: string)
    ensures '.' !in ext && '/' !in ext
  {
    var base := match LastIndexOf(name, '/') case Some(i) => name[i + 1..] case None => name;
    match LastIndexOf(base, '.')
    case Some(j) => base[j + 1..]
    case None => ""
  }

  /** one entry of the reshaped upload list */
  datatype UploadedFile = UploadedFile(name: string, error: int, size: int)

  /** the checks before a file is graded, in the order they run; the message of the first that fails */
  function RejectionOf(file: UploadedFile, moved: bool): (e: Option<string>)
    ensures e.None? <==>
      file.error == UPLOAD_ERR_OK && file.size <= MAX_FILE_SIZE && LowerString(Extension(file.name)) in ALLOWED_EXTENSIONS && moved
    ensures file.error != UPLOAD_ERR_OK ==> e == Some(UploadErrorMessage(file.error))
    ensures file.error == UPLOAD_ERR_OK && file.size > MAX_FILE_SIZE ==> e == Some(TOO_LARGE)
  {
    if file.error != UPLOAD_ERR_OK then Some(UploadErrorMessage(file.error))
    else if file.size > MAX_FILE_SIZE then Some(TOO_LARGE)
    else if LowerString(Extension(file.name)) !in ALLOWED_EXTENSIONS then Some(INVALID_TYPE)
    else if !moved then Some(SAVE_FAILED)
    else None
  }

  // ---------------------------------------------------------------- one file

  /** what reading the saved file gave: its text, or the message of the exception raised */
  datatype Extraction = Extracted(content: string) | ExtractionFailed(message: string)

  /** everything outside the handler that one file meets */
  datatype FileEnv = FileEnv(moved: bool, extraction: Extraction, outcome: RemoteOutcome, draws: GradeDraws)

  predicate ValidEnv(env: FileEnv) { ValidGradeDraws(env.draws) }

  /** one entry of `$response['submissions']`; `error` None is `null` */
  datatype Submission = Submission(
    fileName: string, wordCount: int, score: int, confidence: int, feedback: string, error: Option<string>)

  /** one row inserted into `submissions` */
  datatype StoredRow = StoredRow(fileName: string, wordCount: int, score: int, confidence: int, feedback: string)

  function Blank(file: UploadedFile): Submission
  {
    Submission(file.name, 0, 0, 0, "", None)
  }

  /** the submission one file yields */
  function HandleFile(file: UploadedFile, env: FileEnv): (sub: Submission)
    requires ValidEnv(env)
    ensures sub.fileName == file.name
    ensures RejectionOf(file, env.moved).Some? ==> sub == Blank(file).(error := RejectionOf(file, env.moved))
  {
    var rejection := RejectionOf(file, env.moved);
    if rejection.Some? then Blank(file).(error := rejection)
    else match env.extraction
      case ExtractionFailed(msg) => Blank(file).(error := Some(PROCESSING_ERROR + msg))
      case Extracted(content) =>
        var wc := StrWordCount(content);
        var g := GradeSubmission(content, env.outcome, env.draws);
        if g.error.Some? then Blank(file).(wordCount := wc, error := g.error)
        else Submission(file.name, wc, g.score, g.confidence, g.feedback, None)
  }

  /** the row stored for a submission graded without error */
  function RowOf(sub: Submission): StoredRow
  {
    StoredRow(sub.fileName, sub.wordCount, sub.score, sub.confidence, sub.feedback)
  }

  /** the rows of the error-free submissions, in order */
  function CleanRows(subs: seq<Submission>): (rows: seq<StoredRow>)
    ensures |rows| <= |subs|
  {
    if subs == [] then []
    else
      var last := subs[|subs| - 1];
      CleanRows(subs[..|subs| - 1]) + (if last.error.None? then [RowOf(last)] else [])
  }

  /** `empty($sub['error'])` */
  predicate ErrorIsEmpty(s: Submission) { s.error.None? || PhpEmpty(s.error.value) }

  /** `count(array_filter($submissions, ...))`: the submissions whose error is empty */
  function CountSucceeded(subs: seq<Submission>): (n: nat)
    ensures n <= |subs|
    ensures n > 0 <==> exists j :: 0 <= j < |subs| && ErrorIsEmpty(subs[j])
  {
    if subs == [] then 0
    else CountSucceeded(subs[..|subs| - 1]) + (if ErrorIsEmpty(subs[|subs| - 1]) then 1 else 0)
  }

  /** the body of the `foreach`: the checks in order, then extraction and grading;
      the row to store when grading gave no error */
  method HandleUpload(file: UploadedFile, env: FileEnv) returns (result: Submission, stored: Option<StoredRow>)
    requires ValidEnv(env)
    ensures result == HandleFile(file, env)
    ensures stored == (if result.error.None? then Some(RowOf(result)) else None)
  {
    result := Blank(file);
    stored := None;
    var rejection := RejectionOf(file, env.moved);
    if rejection.Some? {
      result := result.(error := rejection);
      return;
    }
    match env.extraction {
      case ExtractionFailed(msg) =>
        result := result.(error := Some(PROCESSING_ERROR + msg));
      case Extracted(content) =>
        result := result.(wordCount := StrWordCount(content));
        var g := GradeSubmission(content, env.outcome, env.draws);
        if g.error.Some? {
          result := result.(error := g.error);
        } else {
          result := result.(score := g.score, confidence := g.confidence, feedback := g.feedback);
          stored := Some(StoredRow(file.name, result.wordCount, result.score, result.confidence, result.feedback));
        }
    }
  }

  /** the submissions of the files, in order: each handled on its own */
  function HandleAll(files: seq<UploadedFile>, envs: seq<FileEnv>): (subs: seq<Submission>)
    requires |files| == |envs| && forall j :: 0 <= j < |envs| ==> ValidEnv(envs[j])
  {
    seq(|files|, j requires 0 <= j < |files| => HandleFile(files[j], envs[j]))
  }

  /** taking one more element of a sequence appends that element */
  lemma {:induction false} TakeOneMore<T>(s: seq<T>, i: nat)
    requires i < |s|
    ensures s[..i + 1] == s[..i] + [s[i]]
  {
  }

  /** the `foreach ($files as $file)` loop and the `success` flag after it */
  method ProcessUploads(files: seq<UploadedFile>, envs: seq<FileEnv>)
    returns (submissions: seq<Submission>, rows: seq<StoredRow>, success: bool)
    requires |files| == |envs| && forall j :: 0 <= j < |envs| ==> ValidEnv(envs[j])
    ensures submissions == HandleAll(files, envs)
    ensures rows == CleanRows(submissions)
    ensures success <==> exists j :: 0 <= j < |submissions| && ErrorIsEmpty(submissions[j])
  {
    ghost var expected := HandleAll(files, envs);
    submissions := [];
    rows := [];
    var i := 0;
    while i < |files|
      invariant 0 <= i <= |files|
      invariant submissions == expected[..i]
      invariant rows == CleanRows(submissions)
      decreases |files| - i
    {
      var result, stored := HandleUpload(files[i], envs[i]);
      AppendRow(submissions, result);
      if stored.Some? {
        rows := rows + [stored.value];
      }
      TakeOneMore(expected, i);
      submissions := submissions + [result];
      i := i + 1;
    }
    assert expected[..i] == expected;
    success := CountSucceeded(submissions) > 0;
  }

  /** how the stored rows grow with one more submission */
  lemma {:induction false} AppendRow(subs: seq<Submission>, sub: Submission)
    ensures CleanRows(subs + [sub]) == CleanRows(subs) + (if sub.error.None? then [RowOf(sub)] else [])
  {
    assert (subs + [sub])[..|subs|] == subs;
  }

  // ---------------------------------------------------------------- properties

  /** A file that passes every check and is graded without error gets the grade's
      score, confidence and feedback and the `str_word_count` of its text. */
  lemma {:induction false} GradedFileKept(file: UploadedFile, env: FileEnv, content: string)
    requires ValidEnv(env) && RejectionOf(file, env.moved).None? && env.extraction == Extracted(content)
    requires GradeSubmission(content, env.outcome, env.draws).error.None?
    ensures var g := GradeSubmission(content, env.outcome, env.draws);
      HandleFile(file, env) == Submission(file.name, StrWordCount(content), g.score, g.confidence, g.feedback, None)
  {
  }

  /** Of all grading outcomes only a failed remote request leaves an error, and so keeps
      a checked file out of the table. */
  lemma {:induction false} OnlyTransportFailureUnstored(file: UploadedFile, env: FileEnv, content: string)
    requires ValidEnv(env) && RejectionOf(file, env.moved).None? && env.extraction == Extracted(content)
    ensures HandleFile(file, env).error.Some? <==> !IsShortText(content) && env.outcome.TransportFailure?
  {
  }

  /** The extension of a name without a slash is exactly what follows its last dot. */
  lemma {:induction false} ExtensionAfterLastDot(stem: string, ext: string)
    requires '/' !in stem && '.' !in ext && '/' !in ext
    ensures Extension(stem + "." + ext) == ext
  {
    var name := stem + "." + ext;
    assert forall k :: 0 <= k < |name| ==> name[k] != '/' by {
      forall k | 0 <= k < |name|
        ensures name[k] != '/'
      {
        if k < |stem| { assert name[k] == stem[k]; }
        else if k > |stem| { assert name[k] == ext[k - |stem| - 1]; }
      }
    }
    assert name[|stem|] == '.';
    assert forall k :: |stem| < k < |name| ==> name[k] == ext[k - |stem| - 1];
    assert name[|stem| + 1..] == ext;
  }
}
