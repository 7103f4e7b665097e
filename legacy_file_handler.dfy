/**
 * The older upload step (BPI_File_Handler). Its structure check and row
 * handling are those of FileHandler; it differs in having no nonce check,
 * in reading JSON with file_get_contents, in taking CSV rows from fgetcsv,
 * and in reporting a missing upload error code as an unknown error.
 */
module LegacyFileHandler {
  import opened PhpValue
  import opened PhpString
  import opened WordPress
  import Utils
  import opened Staging
  import opened FileHandler

  /**
   * The message for a failed upload: get_upload_error_message of the raw
   * 'error' field, looked up as an array key, so a missing field (null, the
   * key "") is an unknown error.
   */
  function LegacyUploadMessage(upload: Value): (msg: string)
    ensures !Isset(upload, ErrorKey) ==> msg == "Unknown upload error occurred."
    ensures Isset(upload, ErrorKey) && Get(upload, ErrorKey).Int? ==>
      msg == Utils.UploadErrorMessage(Get(upload, ErrorKey).i)
  {
    var key := AsKey(GetOrNull(upload, ErrorKey));
    if key.Some? && key.value.IntKey? then Utils.UploadErrorMessage(key.value.i)
    else Utils.UploadMessage.UnknownUpload.Text()
  }

  /** validate_file_upload: `no_file`, `upload_error`, `invalid_file_type`, `invalid_mime_type`, in that order. */
  function ValidateFileUpload(upload: Value, host: Host, files: Files): (r: Option<FileError>)
    ensures r == Some(NoFile) <==> NoFileUploaded(upload)
    ensures r.Some? && r.value.UploadError? <==> !NoFileUploaded(upload) && UploadFailed(upload)
    ensures r.Some? && r.value.UploadError? ==> r.value.uploadMessage == LegacyUploadMessage(upload)
    ensures !NoFileUploaded(upload) && !UploadFailed(upload) ==> r == FileTypeCheck(upload, host, files)
  {
    if NoFileUploaded(upload) then Some(NoFile)
    else if UploadFailed(upload) then Some(UploadError(LegacyUploadMessage(upload)))
    else FileTypeCheck(upload, host, files)
  }

  /** The two variants agree on every upload except in the message for a failed one. */
  lemma ValidationAgrees(upload: Value, host: Host, files: Files)
    ensures var legacy := ValidateFileUpload(upload, host, files);
      var current := FileHandler.ValidateFileUpload(upload, host, files);
      (legacy.Some? && legacy.value.UploadError?) || legacy == current
  {
  }

  /** read_and_decode_json: file_get_contents, the BOM stripped, decode, the structure check. */
  function ReadAndDecodeJson(files: Files, path: string): (r: Result<Value>)
    ensures r.Err? ==>
      (r.error in {FileReadError(false), InvalidStructure, EmptyArray, InvalidItems} || r.error.JsonDecodeError?)
    ensures r.Ok? ==> ValidData(r.value)
    ensures r.Ok? ==>
      (files.contents(path).Some? && files.jsonDecode(StripBom(files.contents(path).value)) == Decoded(r.value))
  {
    match files.contents(path)
    case None => Err(FileReadError(false))
    case Some(content) =>
      match files.jsonDecode(StripBom(content))
      case DecodeFailed(m) => Err(JsonDecodeError(m))
      case Decoded(data) =>
        match ValidateJsonStructure(data)
        case Some(e) => Err(e)
        case None => Ok(data)
  }

  /** What read_and_parse_csv returns: the rows fgetcsv yields, through the row loop. */
  function CsvResult(files: Files, path: string): (r: Result<Value>)
    ensures r.Err? ==> r.error in {FileReadError(true), FileOpenError, InvalidCsvHeaders, EmptyCsv}
    ensures r.Ok? ==> ValidData(r.value)
  {
    if !files.readable(path) then Err(FileReadError(true))
    else match files.csvRows(path)
      case None => Err(FileOpenError)
      case Some(rows) => ParseRows(rows)
  }

  /** read_and_parse_csv: the loop over the rows of fgetcsv. */
  method ReadAndParseCsv(files: Files, path: string) returns (r: Result<Value>)
    ensures r == CsvResult(files, path)
  {
    if !files.readable(path) {
      return Err(FileReadError(true));
    }
    var handle := files.csvRows(path);
    if handle.None? {
      return Err(FileOpenError);
    }
    var rows := handle.value;
    var csvData: seq<Value> := [];
    var headers: seq<string> := [];
    var headersFound := false;
    var i := 0;
    while i < |rows|
      invariant 0 <= i <= |rows|
      invariant CsvState(Kept(rows[..i]), headersFound, headers, csvData)
    {
      var row := rows[i];
      assert rows[..i + 1] == rows[..i] + [row];
      KeptSnoc(rows[..i], row);
      var invalid;
      invalid, headersFound, headers, csvData := HandleRow(row, headersFound, headers, csvData, Kept(rows[..i]));
      if invalid {
        CsvStopsEarly(rows, rows[..i + 1]);
        return Err(InvalidCsvHeaders);
      }
      i := i + 1;
    }
    assert rows[..i] == rows;
    CsvFinish(Kept(rows), headersFound, headers, csvData);
    if csvData == [] {
      return Err(EmptyCsv);
    }
    return Ok(Arr(ListOf(csvData)));
  }

  /** The parser the extension selects. */
  function ParsedData(upload: Value, host: Host, files: Files): (r: Result<Value>)
    ensures r == Err(UnsupportedFileType) <==> Extension(upload, host) !in ValidExtensions
    ensures r.Err? ==> r.error != SecurityCheckFailed
    ensures r.Ok? ==> ValidData(r.value)
  {
    var ext := Extension(upload, host);
    var path := TmpPath(upload, host);
    if ext == "json" then ReadAndDecodeJson(files, path)
    else if ext == "csv" then CsvResult(files, path)
    else Err(UnsupportedFileType)
  }

  /**
   * The outcome of process_uploaded_file, with no nonce check: the upload
   * checks, the post type, the parse; on success the keys of the first
   * record and the number of records.
   */
  function UploadOutcome(upload: Value, postField: Value, host: Host, files: Files, nonce: string)
    : (r: Result<UploadSummary>)
    ensures r != Err(SecurityCheckFailed)
  {
    match ValidateFileUpload(upload, host, files)
    case Some(e) => Err(e)
    case None =>
      var postType := SelectedPostType(postField, host);
      StagedOutcome(files.postTypeExists(postType), ParsedData(upload, host, files), postType,
                    Utils.TransientKey(host.currentUserId, nonce), UploadedName(upload, host))
  }

  /**
   * An upload problem is reported before anything is parsed, and a success
   * reports the keys of the first record only and the number of records.
   */
  lemma UploadOutcomeFacts(upload: Value, postField: Value, host: Host, files: Files, nonce: string)
    ensures var r := UploadOutcome(upload, postField, host, files, nonce);
      && (ValidateFileUpload(upload, host, files).Some? ==> r == Err(ValidateFileUpload(upload, host, files).value))
      && (r.Ok? ==>
        && ParsedData(upload, host, files).Ok?
        && var data := ParsedData(upload, host, files).value;
        && r.value.itemCount == |data.entries|
        && r.value.jsonKeys == KeysOf(data.entries[0].val.entries)
        && r.value.postType == SelectedPostType(postField, host)
        && r.value.fileName == UploadedName(upload, host))
  {
  }

  /** The parse process_uploaded_file picks by the lower-cased extension. */
  method ParseFile(upload: Value, host: Host, files: Files) returns (data: Result<Value>)
    ensures data == ParsedData(upload, host, files)
  {
    var filePath := TmpPath(upload, host);
    var fileExtension := Extension(upload, host);
    if fileExtension == "json" {
      data := ReadAndDecodeJson(files, filePath);
      assert data == ParsedData(upload, host, files);
    } else if fileExtension == "csv" {
      data := ReadAndParseCsv(files, filePath);
      assert data == ParsedData(upload, host, files);
    } else {
      data := Err(UnsupportedFileType);
    }
  }

  /** The post type check, the parse and the staging that end process_uploaded_file. */
  method FinishUpload(upload: Value, postField: Value, host: Host, files: Files, nonce: string, store: TransientStore)
    returns (r: Result<UploadSummary>)
    modifies store
    ensures r == StagedOutcome(files.postTypeExists(SelectedPostType(postField, host)), ParsedData(upload, host, files),
                               SelectedPostType(postField, host), Utils.TransientKey(host.currentUserId, nonce),
                               UploadedName(upload, host))
    ensures r.Err? ==> store.entries == old(store.entries)
    ensures r.Ok? ==> ParsedData(upload, host, files).Ok? && store.entries == old(store.entries)[r.value.transientKey :=
      StagedEntry(ParsedData(upload, host, files).value, r.value.postType, r.value.fileName)]
  {
    var fileName := UploadedName(upload, host);
    var postType := SelectedPostType(postField, host);
    if !files.postTypeExists(postType) {
      return Err(InvalidPostType);
    }
    var data := ParseFile(upload, host, files);
    var transientKey := Utils.TransientKey(host.currentUserId, nonce);
    r := StageData(data, postType, fileName, transientKey, store);
  }

  /** process_uploaded_file: on success the parsed data is staged under the transient key. */
  method ProcessUploadedFile(upload: Value, postField: Value, host: Host, files: Files, nonce: string,
                             store: TransientStore)
    returns (r: Result<UploadSummary>)
    modifies store
    ensures r == UploadOutcome(upload, postField, host, files, nonce)
    ensures r.Err? ==> store.entries == old(store.entries)
    ensures r.Ok? ==> ParsedData(upload, host, files).Ok? && store.entries == old(store.entries)[r.value.transientKey :=
      StagedEntry(ParsedData(upload, host, files).value, r.value.postType, r.value.fileName)]
  {
    var validation := ValidateFileUpload(upload, host, files);
    if validation.Some? {
      return Err(validation.value);
    }
    r := FinishUpload(upload, postField, host, files, nonce, store);
  }
}
