/**
 * The upload step (BULKPOSTIMPORTER_File_Handler): the fixed-order checks on
 * the uploaded file, the structural check of decoded JSON, the CSV
 * header-and-row loop, and the staging of the parsed records.
 */
module FileHandler {
  import opened PhpValue
  import opened PhpString
  import opened WordPress
  import Utils
  import opened Staging

  /** The WP_Error values the upload step can return. */
  datatype FileError =
    | SecurityCheckFailed
    | NoFile
    | UploadError(uploadMessage: string)
    | InvalidFileType(detectedType: string)
    | InvalidMimeType(detectedType: string)
    | InvalidPostType
    | UnsupportedFileType
    | FilesystemError
    | FileReadError(csv: bool)
    | FileOpenError
    | JsonDecodeError(jsonMessage: string)
    | InvalidStructure
    | EmptyArray
    | InvalidItems
    | InvalidCsvHeaders
    | EmptyCsv
  {
    /** The WP_Error code. */
    function Code(): string
    {
      match this
      case SecurityCheckFailed => "security_check_failed"
      case NoFile => "no_file"
      case UploadError(_) => "upload_error"
      case InvalidFileType(_) => "invalid_file_type"
      case InvalidMimeType(_) => "invalid_mime_type"
      case InvalidPostType => "invalid_post_type"
      case UnsupportedFileType => "unsupported_file_type"
      case FilesystemError => "filesystem_error"
      case FileReadError(_) => "file_read_error"
      case FileOpenError => "file_open_error"
      case JsonDecodeError(_) => "json_decode_error"
      case InvalidStructure => "invalid_structure"
      case EmptyArray => "empty_array"
      case InvalidItems => "invalid_items"
      case InvalidCsvHeaders => "invalid_csv_headers"
      case EmptyCsv => "empty_csv"
    }

    /** The WP_Error message. */
    function Message(): string
    {
      match this
      case SecurityCheckFailed => "Security check failed."
      case NoFile => "No file was uploaded."
      case UploadError(m) => "File upload error: " + m
      case InvalidFileType(t) =>
        "Invalid file type. Please upload a .json or .csv file (detected type: " + t + ")."
      case InvalidMimeType(t) =>
        "Invalid MIME type. Please upload a valid JSON or CSV file (detected type: " + t + ")."
      case InvalidPostType => "Invalid post type selected."
      case UnsupportedFileType => "Unsupported file type. Please upload a JSON or CSV file."
      case FilesystemError => "Could not initialize WordPress filesystem."
      case FileReadError(csv) =>
        if csv then "Could not read the uploaded CSV file." else "Could not read the uploaded file."
      case FileOpenError => "Could not open the uploaded CSV file."
      case JsonDecodeError(m) => "JSON Decode Error: " + m + ". Please ensure the file is valid UTF-8 encoded JSON."
      case InvalidStructure => "JSON file structure error: Root element must be an array [...]."
      case EmptyArray => "The JSON file appears to contain an empty array."
      case InvalidItems => "JSON file structure error: The array should contain objects {...}."
      case InvalidCsvHeaders => "CSV file must have header row with column names."
      case EmptyCsv => "The CSV file appears to contain no data rows."
    }
  }

  datatype Result<T> = Ok(value: T) | Err(error: FileError)

  /** What `json_decode($s, true)` gives, with `json_last_error_msg()` on failure. */
  datatype JsonResult = Decoded(data: Value) | DecodeFailed(message: string)

  /** The file system and decoders the upload step calls. */
  datatype Files = Files(
    /** WP_Filesystem() */
    filesystemReady: bool,
    /** $wp_filesystem->exists($path) && $wp_filesystem->is_readable($path), or file_exists && is_readable */
    readable: string -> bool,
    /** $wp_filesystem->get_contents($path), or file_get_contents: None for false */
    contents: string -> Option<string>,
    /** mime_content_type($path): None for false */
    mimeContentType: string -> Option<string>,
    /** json_decode($s, true) */
    jsonDecode: string -> JsonResult,
    /** str_getcsv($line, ',') */
    strGetCsv: string -> seq<string>,
    /** the rows fgetcsv($handle, 0, ',') yields, or None when fopen fails */
    csvRows: string -> Option<seq<seq<string>>>,
    /** intval on an upload error field that is not an int */
    intval: Value -> int,
    /** post_type_exists */
    postTypeExists: string -> bool
  )

  // ---------------------------------------------------------------------
  // validate_json_structure

  /**
   * The structure check on decoded JSON, in its order: the root must be an
   * array, it must not be empty, and its first element must be an array.
   */
  function ValidateJsonStructure(data: Value): (r: Option<FileError>)
    ensures r == Some(InvalidStructure) <==> !data.Arr?
    ensures r == Some(EmptyArray) <==> data == Arr([])
    ensures r == Some(InvalidItems) <==> data.Arr? && data.entries != [] && !data.entries[0].val.Arr?
    ensures r == None <==> data.Arr? && data.entries != [] && data.entries[0].val.Arr?
  {
    if !data.Arr? then Some(InvalidStructure)
    else if IsEmpty(data) then Some(EmptyArray)
    else if !data.entries[0].val.Arr? then Some(InvalidItems)
    else None
  }

  /** Only the first element is inspected: what follows it never changes the verdict. */
  lemma OnlyFirstElementChecked(first: Entry, rest1: seq<Entry>, rest2: seq<Entry>)
    ensures ValidateJsonStructure(Arr([first] + rest1)) == ValidateJsonStructure(Arr([first] + rest2))
  {
    assert ([first] + rest1)[0] == first && ([first] + rest2)[0] == first;
  }

  /** Data that passed the structure check: a non-empty array whose first element is an array. */
  predicate ValidData(data: Value)
  {
    ValidateJsonStructure(data) == None
  }

  // ---------------------------------------------------------------------
  // read_and_decode_json

  /** The UTF-8 byte order mark EF BB BF. */
  const Bom: string := ['\U{EF}', '\U{BB}', '\U{BF}']

  /** `preg_replace('/^\xEF\xBB\xBF/', '', $s)`: one leading BOM removed, nothing else. */
  function StripBom(s: string): (r: string)
    ensures Bom <= s ==> s == Bom + r
    ensures !(Bom <= s) ==> r == s
  {
    if Bom <= s then s[|Bom|..] else s
  }

  /** Exactly one BOM is removed, so a doubled BOM leaves one behind. */
  lemma StripBomOnce(s: string)
    ensures StripBom(Bom + s) == s
  {
    assert Bom <= Bom + s;
  }

  /** read_and_decode_json: read, strip the BOM, decode, check the structure. */
  function ReadAndDecodeJson(files: Files, path: string): (r: Result<Value>)
    ensures r.Err? ==>
      (r.error in {FilesystemError, FileReadError(false), InvalidStructure, EmptyArray, InvalidItems}
       || r.error.JsonDecodeError?)
    ensures r.Ok? ==> ValidData(r.value)
    ensures r.Ok? ==>
      (files.filesystemReady && files.contents(path).Some?
       && files.jsonDecode(StripBom(files.contents(path).value)) == Decoded(r.value))
  {
    if !files.filesystemReady then Err(FilesystemError)
    else match files.contents(path)
      case None => Err(FileReadError(false))
      case Some(content) =>
        match files.jsonDecode(StripBom(content))
        case DecodeFailed(m) => Err(JsonDecodeError(m))
        case Decoded(data) =>
          match ValidateJsonStructure(data)
          case Some(e) => Err(e)
          case None => Ok(data)
  }

  // ---------------------------------------------------------------------
  // The CSV row loop (shared with the older BPI_File_Handler)

  /** `empty(array_filter($row))`: every field is "" or "0". */
  predicate BlankRow(row: seq<string>)
  {
    forall i :: 0 <= i < |row| ==> IsFalsyString(row[i])
  }

  /** The rows the loop does not skip, in order. */
  function Kept(rows: seq<seq<string>>): seq<seq<string>>
  {
    if rows == [] then []
    else
      var last := rows[|rows| - 1];
      Kept(rows[..|rows| - 1]) + if BlankRow(last) then [] else [last]
  }

  lemma KeptSnoc(rows: seq<seq<string>>, row: seq<string>)
    ensures Kept(rows + [row]) == Kept(rows) + if BlankRow(row) then [] else [row]
  {
    assert (rows + [row])[..|rows|] == rows;
  }

  /** What the loop keeps from a prefix of the rows is a prefix of what it keeps in the end. */
  lemma {:induction false} KeptPrefix(rows: seq<seq<string>>, i: nat)
    requires i <= |rows|
    ensures Kept(rows[..i]) <= Kept(rows)
    decreases |rows| - i
  {
    if i < |rows| {
      assert rows[..i + 1] == rows[..i] + [rows[i]];
      KeptSnoc(rows[..i], rows[i]);
      KeptPrefix(rows, i + 1);
    } else {
      assert rows[..i] == rows;
    }
  }

  /** `array_map('trim', $row)` */
  function TrimAll(row: seq<string>): (r: seq<string>)
    ensures |r| == |row| && forall i :: 0 <= i < |row| ==> r[i] == Trim(row[i])
  {
    seq(|row|, i requires 0 <= i < |row| => Trim(row[i]))
  }

  /** The header of column i: the i-th header, or "column_i" past the end of the header row. */
  function HeaderAt(headers: seq<string>, i: nat): (h: string)
    ensures i < |headers| ==> h == headers[i]
    ensures i >= |headers| ==> h == "column_" + NatToString(i)
  {
    if i < |headers| then headers[i] else "column_" + NatToString(i)
  }

  /** The assignments `$row_data[$header] = trim($value)`, in column order. */
  function RowPairs(headers: seq<string>, row: seq<string>): (ps: seq<Entry>)
    ensures |ps| == |row|
    ensures forall i :: 0 <= i < |row| ==> ps[i] == Entry(StrKey(HeaderAt(headers, i)), Str(Trim(row[i])))
  {
    seq(|row|, i requires 0 <= i < |row| => Entry(StrKey(HeaderAt(headers, i)), Str(Trim(row[i]))))
  }

  /** A data row as the record the loop builds. */
  function ZipRow(headers: seq<string>, row: seq<string>): (record: Value)
    ensures record.Arr? && DistinctKeys(record.entries)
  {
    Arr(PutAll(RowPairs(headers, row)))
  }

  /** The loop over the columns of one data row. */
  method ZipRowData(headers: seq<string>, row: seq<string>) returns (rowData: Value)
    ensures rowData == ZipRow(headers, row)
  {
    ghost var ps := RowPairs(headers, row);
    var entries: seq<Entry> := [];
    var index := 0;
    while index < |row|
      invariant 0 <= index <= |row|
      invariant entries == PutAll(ps[..index])
    {
      var header := if index < |headers| then headers[index] else "column_" + NatToString(index);
      PutAllStep(ps, index);
      entries := Put(entries, StrKey(header), Str(Trim(row[index])));
      index := index + 1;
    }
    assert ps[..index] == ps;
    rowData := Arr(entries);
  }

  /**
   * A record holds, under each key, the trimmed value of the last column
   * headed by that key: a duplicate header keeps the last value, and a key
   * no column is headed by is absent.
   */
  lemma ZipRowFind(headers: seq<string>, row: seq<string>, k: Key)
    ensures var ps := RowPairs(headers, row);
      var i := LastKeyIndex(ps, k);
      Find(ZipRow(headers, row).entries, k) == if i < 0 then None else Some(Str(Trim(row[i])))
  {
    PutAllFind(RowPairs(headers, row), k);
  }

  /**
   * With distinct headers and a row no longer than the header row, the
   * record is the columns in order under their headers; a shorter row
   * simply lacks the trailing keys.
   */
  lemma ZipRowByPosition(headers: seq<string>, row: seq<string>)
    requires forall i, j :: 0 <= i < j < |headers| ==> headers[i] != headers[j]
    requires |row| <= |headers|
    ensures ZipRow(headers, row).entries
         == seq(|row|, i requires 0 <= i < |row| => Entry(StrKey(headers[i]), Str(Trim(row[i]))))
  {
    PutAllDistinct(RowPairs(headers, row));
  }

  /** Every data row zipped with the headers. */
  function DataRows(headers: seq<string>, rows: seq<seq<string>>): (records: seq<Value>)
    ensures |records| == |rows|
    ensures forall j :: 0 <= j < |rows| ==> records[j] == ZipRow(headers, rows[j])
  {
    seq(|rows|, j requires 0 <= j < |rows| => ZipRow(headers, rows[j]))
  }

  /**
   * The outcome for the kept rows: none, or only a header row, is
   * `empty_csv`; a header row all empty after trimming is
   * `invalid_csv_headers`; otherwise the later rows zipped with the trimmed
   * headers, as a list.
   */
  function ParseKept(kept: seq<seq<string>>): (r: Result<Value>)
    ensures r.Err? ==> r.error == EmptyCsv || r.error == InvalidCsvHeaders
    ensures r.Ok? ==> ValidData(r.value)
  {
    if kept == [] then Err(EmptyCsv)
    else
      var headers := TrimAll(kept[0]);
      if BlankRow(headers) then Err(InvalidCsvHeaders)
      else if |kept| == 1 then Err(EmptyCsv)
      else Ok(Arr(ListOf(DataRows(headers, kept[1..]))))
  }

  /** What the CSV loop returns for the rows it reads. */
  function ParseRows(rows: seq<seq<string>>): (r: Result<Value>)
    ensures r.Err? ==> r.error == EmptyCsv || r.error == InvalidCsvHeaders
    ensures r.Ok? ==> ValidData(r.value)
  {
    ParseKept(Kept(rows))
  }

  /** The three outcomes of the row loop, each with the rows that lead to it. */
  lemma ParseRowsOutcomes(rows: seq<seq<string>>)
    ensures var k := Kept(rows);
      && (ParseRows(rows) == Err(EmptyCsv) <==> k == [] || (|k| == 1 && !BlankRow(TrimAll(k[0]))))
      && (ParseRows(rows) == Err(InvalidCsvHeaders) <==> k != [] && BlankRow(TrimAll(k[0])))
      && (ParseRows(rows).Ok? <==> |k| >= 2 && !BlankRow(TrimAll(k[0])))
  {
  }

  /**
   * A successful parse has one record per kept row after the header row,
   * under the keys 0, 1, 2, ..., each zipped with the trimmed headers.
   */
  lemma ParseRowsRecords(rows: seq<seq<string>>, j: nat)
    requires ParseRows(rows).Ok?
    requires j < |Kept(rows)| - 1
    ensures var k := Kept(rows);
      |ParseRows(rows).value.entries| == |k| - 1
      && ParseRows(rows).value.entries[j] == Entry(IntKey(j), ZipRow(TrimAll(k[0]), k[j + 1]))
  {
  }

  /**
   * The loop state after some rows, while it has not failed, expressed over
   * the rows kept so far: `headersFound` says a row was kept, `headers` is
   * that first row trimmed and not blank, and `csvData` the later ones zipped.
   */
  ghost predicate CsvState(kept: seq<seq<string>>, headersFound: bool, headers: seq<string>, csvData: seq<Value>)
  {
    && headersFound == (kept != [])
    && (!headersFound ==> csvData == [])
    && (headersFound ==>
      && headers == TrimAll(kept[0]) && !BlankRow(headers)
      && csvData == DataRows(headers, kept[1..]))
  }

  /** A first kept row: it becomes the header row, or fails when it trims to blanks. */
  lemma HeaderRowState(kept: seq<seq<string>>, row: seq<string>)
    requires kept == [] && !BlankRow(row)
    ensures (kept + [row])[0] == row
    ensures !BlankRow(TrimAll(row)) ==> CsvState(kept + [row], true, TrimAll(row), [])
  {
    assert kept + [row] == [row];
    assert [row][1..] == [];
  }

  /** A later kept row is zipped onto the headers and appended. */
  lemma DataRowState(kept: seq<seq<string>>, headers: seq<string>, csvData: seq<Value>, row: seq<string>)
    requires CsvState(kept, true, headers, csvData)
    ensures (kept + [row])[0] == kept[0]
    ensures CsvState(kept + [row], true, headers, csvData + [ZipRow(headers, row)])
  {
    assert (kept + [row])[0] == kept[0];
    assert (kept + [row])[1..] == kept[1..] + [row];
    assert DataRows(headers, kept[1..] + [row]) == DataRows(headers, kept[1..]) + [ZipRow(headers, row)];
  }

  /** One pass of the loop body over a row the reader returned. */
  method HandleRow(row: seq<string>, headersFound: bool, headers: seq<string>, csvData: seq<Value>,
                   ghost kept: seq<seq<string>>)
    returns (invalidHeaders: bool, found': bool, headers': seq<string>, csvData': seq<Value>)
    requires CsvState(kept, headersFound, headers, csvData)
    ensures var kept' := kept + if BlankRow(row) then [] else [row];
      && (invalidHeaders <==> kept' != [] && BlankRow(TrimAll(kept'[0])))
      && (!invalidHeaders ==> CsvState(kept', found', headers', csvData'))
  {
    found', headers', csvData' := headersFound, headers, csvData;
    invalidHeaders := false;
    if BlankRow(row) {
      assert kept + [] == kept;
      return;
    }
    if !headersFound {
      HeaderRowState(kept, row);
      headers' := TrimAll(row);
      if headers' == [] || BlankRow(headers') {
        invalidHeaders := true;
        return;
      }
      found' := true;
      return;
    }
    DataRowState(kept, headers, csvData, row);
    var rowData := ZipRowData(headers, row);
    csvData' := csvData + [rowData];
  }

  /** The state after the last row decides the result. */
  lemma CsvFinish(kept: seq<seq<string>>, headersFound: bool, headers: seq<string>, csvData: seq<Value>)
    requires CsvState(kept, headersFound, headers, csvData)
    ensures ParseKept(kept) == if csvData == [] then Err(EmptyCsv) else Ok(Arr(ListOf(csvData)))
  {
  }

  /** Once the kept rows start with a blank header row, the whole input fails with `invalid_csv_headers`. */
  lemma CsvStopsEarly(rows: seq<seq<string>>, prefix: seq<seq<string>>)
    requires prefix <= rows
    requires Kept(prefix) != [] && BlankRow(TrimAll(Kept(prefix)[0]))
    ensures ParseRows(rows) == Err(InvalidCsvHeaders)
  {
    assert rows[..|prefix|] == prefix;
    KeptPrefix(rows, |prefix|);
  }

  // ---------------------------------------------------------------------
  // read_and_parse_csv

  /** The rows str_getcsv yields for the lines that are not blank after trimming. */
  function LineRows(files: Files, lines: seq<string>): seq<seq<string>>
  {
    if lines == [] then []
    else
      var line := Trim(lines[|lines| - 1]);
      LineRows(files, lines[..|lines| - 1]) + if IsFalsyString(line) then [] else [files.strGetCsv(line)]
  }

  lemma LineRowsSnoc(files: Files, lines: seq<string>, line: string)
    ensures LineRows(files, lines + [line])
         == LineRows(files, lines) + if IsFalsyString(Trim(line)) then [] else [files.strGetCsv(Trim(line))]
  {
    assert (lines + [line])[..|lines|] == lines;
  }

  /** The rows of the first lines are the first rows. */
  lemma {:induction false} LineRowsPrefix(files: Files, lines: seq<string>, i: nat)
    requires i <= |lines|
    ensures LineRows(files, lines[..i]) <= LineRows(files, lines)
    decreases |lines| - i
  {
    if i < |lines| {
      assert lines[..i + 1] == lines[..i] + [lines[i]];
      LineRowsSnoc(files, lines[..i], lines[i]);
      LineRowsPrefix(files, lines, i + 1);
    } else {
      assert lines[..i] == lines;
    }
  }

  /** The rows of two runs of lines are the rows of each. */
  lemma {:induction false} LineRowsAppend(files: Files, a: seq<string>, b: seq<string>)
    ensures LineRows(files, a + b) == LineRows(files, a) + LineRows(files, b)
    decreases |b|
  {
    if b == [] {
      assert a + b == a;
    } else {
      var init := b[..|b| - 1];
      var last := b[|b| - 1];
      assert a + b == (a + init) + [last];
      assert b == init + [last];
      LineRowsSnoc(files, a + init, last);
      LineRowsSnoc(files, init, last);
      LineRowsAppend(files, a, init);
      var tail := if IsFalsyString(Trim(last)) then [] else [files.strGetCsv(Trim(last))];
      assert LineRows(files, a) + LineRows(files, init) + tail == LineRows(files, a) + (LineRows(files, init) + tail);
    }
  }

  /** A line that is blank after trimming contributes no row. */
  lemma BlankLineIgnored(files: Files, before: seq<string>, blank: string, after: seq<string>)
    requires IsFalsyString(Trim(blank))
    ensures LineRows(files, before + [blank] + after) == LineRows(files, before + after)
  {
    LineRowsAppend(files, before + [blank], after);
    LineRowsAppend(files, before, after);
    LineRowsSnoc(files, before, blank);
    assert LineRows(files, before) + [] == LineRows(files, before);
  }

  /** What read_and_parse_csv returns. */
  function CsvResult(files: Files, path: string): (r: Result<Value>)
    ensures r.Err? ==> r.error in {FilesystemError, FileReadError(true), FileOpenError, InvalidCsvHeaders, EmptyCsv}
    ensures r.Ok? ==> ValidData(r.value)
  {
    if !files.filesystemReady then Err(FilesystemError)
    else if !files.readable(path) then Err(FileReadError(true))
    else match files.contents(path)
      case None => Err(FileOpenError)
      case Some(content) => ParseRows(LineRows(files, Explode(content, '\n')))
  }

  /** read_and_parse_csv: the content split on "\n", each line trimmed and parsed. */
  method ReadAndParseCsv(files: Files, path: string) returns (r: Result<Value>)
    ensures r == CsvResult(files, path)
  {
    if !files.filesystemReady {
      return Err(FilesystemError);
    }
    if !files.readable(path) {
      return Err(FileReadError(true));
    }
    var csvContent := files.contents(path);
    if csvContent.None? {
      return Err(FileOpenError);
    }
    r := ParseLines(files, Explode(csvContent.value, '\n'));
  }

  /** The loop over the lines of the CSV content. */
  method ParseLines(files: Files, lines: seq<string>) returns (r: Result<Value>)
    ensures r == ParseRows(LineRows(files, lines))
  {
    var csvData: seq<Value> := [];
    var headers: seq<string> := [];
    var headersFound := false;
    var i := 0;
    while i < |lines|
      invariant 0 <= i <= |lines|
      invariant CsvState(Kept(LineRows(files, lines[..i])), headersFound, headers, csvData)
    {
      assert lines[..i + 1] == lines[..i] + [lines[i]];
      var invalid;
      invalid, headersFound, headers, csvData := HandleLine(files, lines[i], headersFound, headers, csvData, lines[..i]);
      if invalid {
        LineRowsPrefix(files, lines, i + 1);
        CsvStopsEarly(LineRows(files, lines), LineRows(files, lines[..i + 1]));
        return Err(InvalidCsvHeaders);
      }
      i := i + 1;
    }
    assert lines[..i] == lines;
    CsvFinish(Kept(LineRows(files, lines)), headersFound, headers, csvData);
    if csvData == [] {
      return Err(EmptyCsv);
    }
    return Ok(Arr(ListOf(csvData)));
  }

  /** One pass of the loop body: trim the line, skip it when blank, parse and handle the row. */
  method HandleLine(files: Files, rawLine: string, headersFound: bool, headers: seq<string>, csvData: seq<Value>,
                    ghost seenLines: seq<string>)
    returns (invalidHeaders: bool, found': bool, headers': seq<string>, csvData': seq<Value>)
    requires CsvState(Kept(LineRows(files, seenLines)), headersFound, headers, csvData)
    ensures var kept' := Kept(LineRows(files, seenLines + [rawLine]));
      && (invalidHeaders <==> kept' != [] && BlankRow(TrimAll(kept'[0])))
      && (!invalidHeaders ==> CsvState(kept', found', headers', csvData'))
  {
    ghost var seen := LineRows(files, seenLines);
    LineRowsSnoc(files, seenLines, rawLine);
    var line := Trim(rawLine);
    if IsFalsyString(line) {
      assert seen + [] == seen;
      invalidHeaders, found', headers', csvData' := false, headersFound, headers, csvData;
      return;
    }
    var row := files.strGetCsv(line);
    KeptSnoc(seen, row);
    invalidHeaders, found', headers', csvData' := HandleRow(row, headersFound, headers, csvData, Kept(seen));
  }

  // ---------------------------------------------------------------------
  // validate_file_upload

  const TmpNameKey: Key := StrKey("tmp_name")
  const NameKey: Key := StrKey("name")
  const ErrorKey: Key := StrKey("error")

  /** No usable upload: the file entry, its 'tmp_name', or a non-empty 'tmp_name' is missing. */
  predicate NoFileUploaded(upload: Value)
  {
    !Isset(upload, TmpNameKey) || IsEmpty(Get(upload, TmpNameKey))
  }

  /** The upload reported something other than UPLOAD_ERR_OK, compared strictly. */
  predicate UploadFailed(upload: Value)
  {
    !Isset(upload, ErrorKey) || Get(upload, ErrorKey) != Int(0)
  }

  /** The error code of a failed upload: `intval` of 'error', or UPLOAD_ERR_NO_FILE when there is none. */
  function UploadErrorCode(upload: Value, files: Files): int
  {
    if !Isset(upload, ErrorKey) then 4
    else
      var e := Get(upload, ErrorKey);
      if e.Int? then e.i else files.intval(e)
  }

  /** The temporary path, through sanitize_text_field. */
  function TmpPath(upload: Value, host: Host): string
  {
    if Isset(upload, TmpNameKey) then host.sanitizeTextField(Get(upload, TmpNameKey)) else ""
  }

  /** The client file name, through sanitize_file_name. */
  function UploadedName(upload: Value, host: Host): string
  {
    if Isset(upload, NameKey) then host.sanitizeFileName(Utils.CastToString(Get(upload, NameKey))) else ""
  }

  /** The lower-cased extension of the file name. */
  function Extension(upload: Value, host: Host): string
  {
    ToLower(FileExtension(UploadedName(upload, host)))
  }

  const ValidExtensions: set<string> := {"json", "csv"}
  const ValidMimeTypes: set<string> := {"application/json", "text/csv", "text/plain", "application/csv"}

  /** mime_content_type of the temporary file. */
  function Mime(upload: Value, host: Host, files: Files): Option<string>
  {
    files.mimeContentType(TmpPath(upload, host))
  }

  predicate MimeAccepted(mime: Option<string>)
  {
    mime.Some? && mime.value in ValidMimeTypes
  }

  /** The detected type quoted in the messages: esc_html of the MIME type, or of false. */
  function DetectedType(mime: Option<string>, host: Host): string
  {
    host.escHtml(if mime.Some? then Str(mime.value) else Bool(false))
  }

  /** The extension check, then the MIME check. */
  function FileTypeCheck(upload: Value, host: Host, files: Files): (r: Option<FileError>)
    ensures r.None? <==> Extension(upload, host) in ValidExtensions && MimeAccepted(Mime(upload, host, files))
  {
    var mime := Mime(upload, host, files);
    if Extension(upload, host) !in ValidExtensions then Some(InvalidFileType(DetectedType(mime, host)))
    else if !MimeAccepted(mime) then Some(InvalidMimeType(DetectedType(mime, host)))
    else None
  }

  /**
   * validate_file_upload: `no_file`, then `upload_error`, then
   * `invalid_file_type`, then `invalid_mime_type`; each check is reached
   * only when the earlier ones pass.
   */
  function ValidateFileUpload(upload: Value, host: Host, files: Files): (r: Option<FileError>)
    ensures r == Some(NoFile) <==> NoFileUploaded(upload)
    ensures r.Some? && r.value.UploadError? <==> !NoFileUploaded(upload) && UploadFailed(upload)
    ensures r.Some? && r.value.UploadError? ==>
      r.value.uploadMessage == Utils.UploadErrorMessage(UploadErrorCode(upload, files))
    ensures r.Some? && r.value.InvalidFileType? <==>
      !NoFileUploaded(upload) && !UploadFailed(upload) && Extension(upload, host) !in ValidExtensions
    ensures r.Some? && r.value.InvalidMimeType? <==>
      && !NoFileUploaded(upload) && !UploadFailed(upload)
      && Extension(upload, host) in ValidExtensions && !MimeAccepted(Mime(upload, host, files))
    ensures r.None? <==>
      && !NoFileUploaded(upload) && !UploadFailed(upload)
      && Extension(upload, host) in ValidExtensions && MimeAccepted(Mime(upload, host, files))
  {
    if NoFileUploaded(upload) then Some(NoFile)
    else if UploadFailed(upload) then Some(UploadError(Utils.UploadErrorMessage(UploadErrorCode(upload, files))))
    else FileTypeCheck(upload, host, files)
  }

  /** An upload without an 'error' field is reported with the message for UPLOAD_ERR_NO_FILE. */
  lemma MissingErrorFieldMessage(upload: Value, host: Host, files: Files)
    requires !NoFileUploaded(upload) && !Isset(upload, ErrorKey)
    ensures ValidateFileUpload(upload, host, files) == Some(UploadError("No file was uploaded."))
  {
    assert UploadErrorCode(upload, files) == 4;
    assert Utils.UploadMessageFor(4) == Utils.UploadMessage.NoFile;
  }

  // ---------------------------------------------------------------------
  // process_uploaded_file

  /** What the upload step reports back for the mapping screen. */
  datatype UploadSummary = UploadSummary(
    jsonKeys: seq<Key>,
    postType: string,
    transientKey: string,
    itemCount: nat,
    fileName: string
  )

  /** The transient value: the parsed data with the post type and file name. */
  function StagedEntry(data: Value, postType: string, fileName: string): Value
  {
    Arr([Entry(StrKey("data"), data), Entry(StrKey("post_type"), Str(postType)), Entry(StrKey("file_name"), Str(fileName))])
  }

  /** The summary of parsed data: the keys of its first record only, and its number of records. */
  function Summarize(data: Value, postType: string, transientKey: string, fileName: string): (summary: UploadSummary)
    requires ValidData(data)
  {
    UploadSummary(KeysOf(data.entries[0].val.entries), postType, transientKey, |data.entries|, fileName)
  }

  /** The end of process_uploaded_file: stage the parsed data, or pass the parse error on. */
  method StageData(data: Result<Value>, postType: string, fileName: string, transientKey: string,
                   store: TransientStore)
    returns (r: Result<UploadSummary>)
    requires data.Ok? ==> ValidData(data.value)
    modifies store
    ensures data.Err? ==> r == Err(data.error) && store.entries == old(store.entries)
    ensures data.Ok? ==> r == Ok(Summarize(data.value, postType, transientKey, fileName))
    ensures data.Ok? ==> store.entries == old(store.entries)[transientKey := StagedEntry(data.value, postType, fileName)]
  {
    if data.Err? {
      return Err(data.error);
    }
    var firstItem := data.value.entries[0].val;
    var fieldKeys := KeysOf(firstItem.entries);
    store.Set(transientKey, StagedEntry(data.value, postType, fileName));
    return Ok(UploadSummary(fieldKeys, postType, transientKey, |data.value.entries|, fileName));
  }

  /** The post type: the submitted one through sanitize_key, or 'post' when none was submitted. */
  function SelectedPostType(postField: Value, host: Host): string
  {
    if postField != Null then host.sanitizeKey(postField) else "post"
  }

  /** The parser the extension selects. */
  function ParsedData(upload: Value, host: Host, files: Files): (r: Result<Value>)
    ensures r == Err(UnsupportedFileType) <==> Extension(upload, host) !in ValidExtensions
    ensures r.Ok? ==> ValidData(r.value)
  {
    var ext := Extension(upload, host);
    var path := TmpPath(upload, host);
    if ext == "json" then ReadAndDecodeJson(files, path)
    else if ext == "csv" then CsvResult(files, path)
    else Err(UnsupportedFileType)
  }

  /** The last steps of process_uploaded_file: the post type check, then the parse. */
  function StagedOutcome(typeExists: bool, parsed: Result<Value>, postType: string, transientKey: string,
                         fileName: string): Result<UploadSummary>
    requires parsed.Ok? ==> ValidData(parsed.value)
  {
    if !typeExists then Err(InvalidPostType)
    else match parsed
      case Err(e) => Err(e)
      case Ok(data) => Ok(Summarize(data, postType, transientKey, fileName))
  }

  /**
   * The outcome of process_uploaded_file: the nonce, then the upload checks,
   * then the post type, then the parse; on success the keys of the first
   * record only and the number of records.
   */
  function UploadOutcome(nonceValid: bool, upload: Value, postField: Value, host: Host, files: Files, nonce: string)
    : (r: Result<UploadSummary>)
    ensures r.Ok? ==>
      && ParsedData(upload, host, files).Ok?
      && var data := ParsedData(upload, host, files).value;
      && r.value.itemCount == |data.entries|
      && r.value.jsonKeys == KeysOf(data.entries[0].val.entries)
      && r.value.postType == SelectedPostType(postField, host)
      && r.value.fileName == UploadedName(upload, host)
      && r.value.transientKey == Utils.TransientKey(host.currentUserId, nonce)
  {
    if !nonceValid then Err(SecurityCheckFailed)
    else match ValidateFileUpload(upload, host, files)
      case Some(e) => Err(e)
      case None =>
        var postType := SelectedPostType(postField, host);
        StagedOutcome(files.postTypeExists(postType), ParsedData(upload, host, files), postType,
                      Utils.TransientKey(host.currentUserId, nonce), UploadedName(upload, host))
  }

  /**
   * The order of the checks: a bad nonce hides everything else, an upload
   * problem hides the post type, and a bad post type hides the parse.
   */
  lemma UploadCheckOrder(nonceValid: bool, upload: Value, postField: Value, host: Host, files: Files, nonce: string)
    ensures var r := UploadOutcome(nonceValid, upload, postField, host, files, nonce);
      && (!nonceValid ==> r == Err(SecurityCheckFailed))
      && (nonceValid && ValidateFileUpload(upload, host, files).Some? ==>
            r == Err(ValidateFileUpload(upload, host, files).value))
      && ((nonceValid && ValidateFileUpload(upload, host, files).None?
           && !files.postTypeExists(SelectedPostType(postField, host))) ==> r == Err(InvalidPostType))
  {
  }

  /** The extension was checked already, so `unsupported_file_type` never comes back. */
  lemma NeverUnsupported(nonceValid: bool, upload: Value, postField: Value, host: Host, files: Files, nonce: string)
    ensures UploadOutcome(nonceValid, upload, postField, host, files, nonce) != Err(UnsupportedFileType)
  {
    if nonceValid && ValidateFileUpload(upload, host, files).None? {
      assert Extension(upload, host) in ValidExtensions;
    }
  }

  /** The parse process_uploaded_file picks by the lower-cased extension. */
  method ParseFile(upload: Value, host: Host, files: Files) returns (data: Result<Value>)
    ensures data == ParsedData(upload, host, files)
  {
    var filePath := TmpPath(upload, host);
    var fileExtension := Extension(upload, host);
    if fileExtension == "json" {
      data := ReadAndDecodeJson(files, filePath);
      assert data == ParsedData(upload, host, files);
    } else if fileExtension == "csv" {
      data := ReadAndParseCsv(files, filePath);
      assert data == ParsedData(upload, host, files);
    } else {
      data := Err(UnsupportedFileType);
    }
  }

  /** The post type check, the parse and the staging that end process_uploaded_file. */
  method FinishUpload(upload: Value, postField: Value, host: Host, files: Files, nonce: string, store: TransientStore)
    returns (r: Result<UploadSummary>)
    modifies store
    ensures r == StagedOutcome(files.postTypeExists(SelectedPostType(postField, host)), ParsedData(upload, host, files),
                               SelectedPostType(postField, host), Utils.TransientKey(host.currentUserId, nonce),
                               UploadedName(upload, host))
    ensures r.Err? ==> store.entries == old(store.entries)
    ensures r.Ok? ==> ParsedData(upload, host, files).Ok? && store.entries == old(store.entries)[r.value.transientKey :=
      StagedEntry(ParsedData(upload, host, files).value, r.value.postType, r.value.fileName)]
  {
    var fileName := UploadedName(upload, host);
    var postType := SelectedPostType(postField, host);
    if !files.postTypeExists(postType) {
      return Err(InvalidPostType);
    }
    var data := ParseFile(upload, host, files);
    var transientKey := Utils.TransientKey(host.currentUserId, nonce);
    r := StageData(data, postType, fileName, transientKey, store);
  }

  /** process_uploaded_file: on success the parsed data is staged under a fresh transient key. */
  method ProcessUploadedFile(nonceValid: bool, upload: Value, postField: Value, host: Host, files: Files,
                             nonce: string, store: TransientStore)
    returns (r: Result<UploadSummary>)
    modifies store
    ensures r == UploadOutcome(nonceValid, upload, postField, host, files, nonce)
    ensures r.Err? ==> store.entries == old(store.entries)
    ensures r.Ok? ==> ParsedData(upload, host, files).Ok? && store.entries == old(store.entries)[r.value.transientKey :=
      StagedEntry(ParsedData(upload, host, files).value, r.value.postType, r.value.fileName)]
  {
    if !nonceValid {
      return Err(SecurityCheckFailed);
    }
    var validation := ValidateFileUpload(upload, host, files);
    if validation.Some? {
      return Err(validation.value);
    }
    r := FinishUpload(upload, postField, host, files, nonce, store);
  }
}
