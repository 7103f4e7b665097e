# Bulk Post Importer — a verified model of the import pipeline

Bulk Post Importer is a WordPress plugin that creates posts from a JSON or
CSV file in two steps.

1. **Upload.** The file is checked and parsed into a list of records, and
   the records are staged in a WordPress transient under a per-user key.
2. **Import.** The staged records are read back exactly once. Each record
   is mapped to a post-creation request through a three-part mapping:
   standard post fields, custom meta pairs and ACF fields. Each request
   goes to `wp_insert_post`. A report counts imported and skipped records
   and lists every diagnostic in record order.

This project models that pipeline in Dafny and proves what the code
promises about it. The modules follow the plugin's classes:

| module | models |
|---|---|
| `PhpValue` | PHP values and ordered arrays: `isset`, `empty()`, `$a[$k] = $v`, array-key coercion |
| `PhpString` | `trim`, `strtolower`, `explode`, `pathinfo` extension, decimal rendering of integers |
| `WordPress` | the WordPress functions the code calls, as parameters |
| `Staging` | the transient store: a class whose `entries` map `set_transient`/`delete_transient` update |
| `Utils` | `BPI_Utils`: block conversion, mapping sanitizer, upload messages, transient key, standard fields; it stands in for the `BULKPOSTIMPORTER_Utils` the current classes call (see below) |
| `AcfHandler` | `BULKPOSTIMPORTER_ACF_Handler`: type allowlist, field discovery, guarded ACF calls |
| `FileHandler` | `BULKPOSTIMPORTER_File_Handler`: upload checks, JSON structure check, BOM strip, CSV loop, staging |
| `LegacyFileHandler` | `BPI_File_Handler`: the older upload step (no nonce check, `fgetcsv` rows) |
| `ImportProcessor` | `BULKPOSTIMPORTER_Import_Processor`: `process_import`, the item loop, the per-item mapping |

## How the model is shaped

Loops that update variables are modelled as methods with loops:
- the item loop and the standard, custom, ACF-prepare and ACF-update loops;
- the CSV line and row loops;
- the `foreach` of the mapping sanitizer;
- the field-discovery loops and the required-field loop.

Each method's `ensures` ties its result to a reference function. The
source's promises are proved about those functions as lemmas.

Parameters passed by reference (`$post_data`, `$warnings`,
`$acf_fields_to_update`) become method inputs and outputs.

The transient store is a class. `ProcessUploadedFile` and `ProcessImport`
state exactly how they change it:
- the upload sets one key;
- the import deletes the key once the transient has been found usable.

Values the code reads from its environment are explicit parameters:
- `$_POST` and `$_FILES` are PHP values;
- the nonce verdict is a `bool`;
- WordPress, ACF and file-system functions are function-valued fields of
  the `Host`, `Acf` and `Files` datatypes.

Nothing is assumed about these host functions beyond their types.

The current classes reach their helpers through `BULKPOSTIMPORTER_Utils`
(`includes/class-bulkpostimporter-plugin.php:89`), whose source is not part
of this model. `Utils` models them on `BPI_Utils`
(`includes/class-bpi-utils.php`) instead. That covers:
- `sanitize_mapping_array` and `convert_to_blocks`, called by the import
  processor;
- `get_upload_error_message` and `generate_transient_key`, called by the
  file handler;
- the `bpi_import_data_` prefix of `Utils.TransientKey`.

The model follows PHP 8's comparison rules, although the plugin declares
PHP 7.4 as its minimum (`bulk-post-importer.php:15`). The one place where this
matters in the modelled code is the `switch ($wp_key)` of
`map_standard_fields`: PHP 8 compares an integer key with a `case` label as
a string, so an integer key matches no label. Every `in_array` in the
modelled code is strict and does not depend on the version.

Behaviour follows the code in three places where the plugin's own
description reads differently:
- **CSV column names.** `column_<i>` names only the fields past the end of
  the header row. A row shorter than the header row simply lacks the
  trailing keys (`includes/class-bulkpostimporter-file-handler.php:268-271`).
- **Unparseable dates.** A date `strtotime` cannot parse leaves
  `post_date` and `post_date_gmt` unset; WordPress then uses the current
  time. The model does not set "now" itself.
- **Line breaks in `convert_to_blocks`.** The `\R` pattern is used without
  the `/u` modifier, so it also matches the single byte 0x85, which can be
  the second byte of a UTF-8 character. See Findings.

For both Findings the pipeline uses the corrected behaviour:
- `ImportProcessor.StandardStep` converts content with `Utils.TextToBlocks`.
  It splits at CR LF, LF, VT, FF and CR, and never at the byte 0x85.
- It maps dates with `ImportProcessor.MapPostDate`, which accepts the
  timestamp 0.

The code as written is modelled beside them, as `Utils.TextToBlocksAsWritten`
and `ImportProcessor.MapPostDateAsWritten`. So `SingleItem`, `ItemsReport`
and `ProcessImport` state what the importer evidently intends on those two
points.

## Model

| member | source | states |
|---|---|---|
| `PhpString.Trim` | includes/class-bulkpostimporter-file-handler.php:240 | `trim` keeps the longest infix that neither starts nor ends with one of " \t\n\r\0\x0B"; everything cut is such a character; the result is empty iff every character is one |
| `PhpString.TrimIdempotent` | includes/class-bpi-utils.php:203 | trimming a trimmed line changes nothing |
| `PhpString.ExplodeJoin` | includes/class-bulkpostimporter-file-handler.php:237 | joining the pieces of `explode("\n", ...)` back with the separator restores the content |
| `PhpString.ExplodeSeparatorFree` | includes/class-bulkpostimporter-file-handler.php:237 | no piece of the split holds a "\n" |
| `PhpString.FileExtension` | includes/class-bulkpostimporter-file-handler.php:108 | `pathinfo(..., PATHINFO_EXTENSION)` is the text after the last '.' of the base name (trailing '/' dropped), so it holds no '.' or '/', and is non-empty only if the name has a '.'; the exact value is pinned by `FileExtensionOf`, `NoDotNoExtension` and `FileExtensionTrailingSlash` |
| `PhpString.LastIndexOfAppend` | includes/class-bulkpostimporter-file-handler.php:108 | appending text without the character leaves its last occurrence where it was (the search `pathinfo` makes for '/' and '.') |
| `PhpString.StripTrailingSlashes` | includes/class-bulkpostimporter-file-handler.php:108 | `basename` first drops the trailing '/' characters: the result is a prefix not ending in '/', and only '/' was cut |
| `PhpString.BaseName` | includes/class-bulkpostimporter-file-handler.php:108 | the base name holds no '/', and only characters of the name |
| `PhpString.BaseNameOf` | includes/class-bulkpostimporter-file-handler.php:108 | the base name of `dir/file` is `file` |
| `PhpString.FileExtensionOf` | includes/class-bulkpostimporter-file-handler.php:108 | the extension of `dir/stem.e` is `e`, for `e` without '.' and '/' and a stem without '/' |
| `PhpString.NoDotNoExtension` | includes/class-bulkpostimporter-file-handler.php:108 | a file name without '.' has the extension "" |
| `PhpString.FileExtensionTrailingSlash` | includes/class-bulkpostimporter-file-handler.php:108 | a trailing '/' does not change the extension, as `basename` ignores it |
| `PhpString.NatToStringRoundTrip` | includes/class-bulkpostimporter-import-processor.php:116-117 | the decimal item number reads back as the number, so item numbers in messages are unambiguous |
| `Staging.Lookup` | includes/class-bulkpostimporter-import-processor.php:47-48 | the value stored under the key, or none (where WordPress returns false) iff the key is not stored |
| `Staging.TransientStore.Get` | includes/class-bulkpostimporter-import-processor.php:47 | `get_transient` yields a value iff the key is stored, and then the stored value |
| `Staging.TransientStore.Set` | includes/class-bulkpostimporter-file-handler.php:75 | `set_transient` stores the value under the key and changes no other key |
| `Staging.TransientStore.Delete` | includes/class-bulkpostimporter-import-processor.php:54-60 | `delete_transient` removes exactly the key; it reads as absent afterwards |
| `Utils.ConvertToBlocks` | includes/class-bpi-utils.php:195-211 | the loop's output is `TextToBlocks` of the `wp_kses_post` output: one paragraph block per non-empty trimmed line, lines ending at CR LF, LF, VT, FF or CR, in order |
| `Utils.SplitAtSingle` | includes/class-bpi-utils.php:198 | a one-character break (LF, VT, FF or CR; also 0x85 as written) splits the lines of a text into those before it and those after it, unless it is half of a CR LF pair |
| `Utils.SplitAtPair` | includes/class-bpi-utils.php:198 | a CR LF pair is one break: the lines are those before it followed by those after it |
| `Utils.BlocksAtCrLf` | includes/class-bpi-utils.php:198-207 | the blocks of `t1 + "\r\n" + t2` are the blocks of `t1` followed by those of `t2` |
| `Utils.BlocksAtBreak` | includes/class-bpi-utils.php:198-207 | for every break (CR LF, LF, VT, FF, CR) the blocks of `t1 + br + t2` are those of `t1` followed by those of `t2`; a CR meeting an LF forms one break |
| `Utils.BlocksAtNewline` | includes/class-bpi-utils.php:198-207 | the blocks of `t1 + "\n" + t2` are the blocks of `t1` followed by those of `t2` (order preserved, the break adds nothing) |
| `Utils.BlankLinesCollapse` | includes/class-bpi-utils.php:198-207 | any number of blank lines between two texts gives the same blocks as a single line break |
| `Utils.LeadingNewlines` | includes/class-bpi-utils.php:198-207 | line breaks before a text contribute no blocks |
| `Utils.SingleLineOneBlock` | includes/class-bpi-utils.php:203-205 | a text without a line break (LF, VT, FF, CR) gives no block when its trimmed form is "" or "0" (PHP `empty`), else exactly the paragraph of its trimmed form |
| `Utils.PlainLineOneBlock` | includes/class-bpi-utils.php:205 | a plain line (no line break, nothing to trim, not "" or "0") becomes exactly `"\n<!-- wp:paragraph --><p>" + line + "</p><!-- /wp:paragraph -->\n\n"` |
| `Utils.TwoParagraphs` | includes/class-bpi-utils.php:198-207 | two paragraphs separated by a blank line become their two blocks, in order |
| `Utils.EmptyTextNoBlocks` | includes/class-bpi-utils.php:199-210 | empty content gives "" under both ways of splitting lines |
| `Utils.AsWrittenSplitsMultibyteChar` | includes/class-bpi-utils.php:198 | as written, a UTF-8 character whose second byte is 0x85 is split, and a block holds its lone lead byte; the intended split keeps it whole |
| `Utils.AsWrittenSplitsARing` | includes/class-bpi-utils.php:198 | as written, "\u{C5}" (bytes C3 85) becomes a block holding the lone byte C3; the intended split keeps both bytes in one block |
| `Utils.SanitizedKey` | includes/class-bpi-utils.php:103 | an int key becomes its absolute value; a non-numeric string key goes through `sanitize_key`; int results are never negative |
| `Utils.CastToString` | includes/class-bpi-utils.php:125 | `(string)` of a string is itself, of an int its decimal form; it is "" exactly for null and false among non-strings |
| `Utils.KeepIdentChars` | includes/class-bpi-utils.php:125 | the `preg_replace` keeps only [A-Za-z0-9_-], in order, and leaves a string of such characters alone |
| `Utils.KeepIdentCharsSingle` | includes/class-bpi-utils.php:125 | one character is kept iff it is in [A-Za-z0-9_-] |
| `Utils.KeepIdentCharsAppend` | includes/class-bpi-utils.php:125 | the filter distributes over concatenation, so with the single-character lemma it keeps exactly the identifier characters, in order |
| `Utils.SanitizeMappingValue` | includes/class-bpi-utils.php:122-137 | under 'meta_key': identifier characters of the string cast, then `sanitize_text_field`; other strings: `sanitize_text_field`; ints unchanged; anything else "" |
| `Utils.SanitizeMapping` | includes/class-bpi-utils.php:94-113 | the result is always an array with distinct keys; a non-array input gives an empty array |
| `Utils.SanitizeMappingArray` | includes/class-bpi-utils.php:94-113 | the loop-and-recursion computes `SanitizeMapping` |
| `Utils.SanitizeEntry` | includes/class-bpi-utils.php:103-109 | one pass stores the entry's sanitized value under its sanitized key, as the fold of the entries so far |
| `Utils.SanitizeMappingFind` | includes/class-bpi-utils.php:102-110 | each sanitized key holds the sanitized value of the last input entry whose key sanitizes to it; keys no entry maps to are absent |
| `Utils.SanitizeMappingShape` | includes/class-bpi-utils.php:105-109 | arrays are sanitized recursively, so every leaf of the result is a string or an int |
| `Utils.SanitizeMappingPointwise` | includes/class-bpi-utils.php:102-112 | when no two keys collide after sanitizing, the result is the input entry by entry, in order, key and value sanitized |
| `Utils.UploadMessageFor` | includes/class-bpi-utils.php:145-161 | the eight known codes each pick their own message; any other code picks the unknown-error message |
| `Utils.UploadMessagesDistinct` | includes/class-bpi-utils.php:147-156 | different known codes get different messages |
| `Utils.UploadErrorMessage` | includes/class-bpi-utils.php:158-160 | an unknown code gives "Unknown upload error occurred." |
| `Utils.TransientKey` | includes/class-bpi-utils.php:168-171 | the key starts with 'bpi_import_data_', followed by the user id, '_' and the nonce |
| `Utils.TransientKeyInjective` | includes/class-bpi-utils.php:168-171 | different users or nonces never share a transient key |
| `Utils.StandardFields` | includes/class-bpi-utils.php:178-187 | exactly the five keys post_title, post_content, post_excerpt, post_status, post_date, in order, each with a non-empty label |
| `AcfHandler.IsFieldMappableIff` | includes/class-bulkpostimporter-acf-handler.php:84-101 | a field is mappable iff it is an array whose 'type' is, strictly, one of text, textarea, number, email, url, password, phone_number |
| `AcfHandler.NoTypeNotMappable` | includes/class-bulkpostimporter-acf-handler.php:86-88 | a field without a 'type' entry is never mappable |
| `AcfHandler.AllowedFieldTypes` | includes/class-bulkpostimporter-acf-handler.php:108-119 | the keys of the table are exactly the mappable types, each once |
| `AcfHandler.MappableIffAllowedKey` | includes/class-bulkpostimporter-acf-handler.php:90-119 | mappable iff the field's 'type' is a string that is a key of `get_allowed_field_types` |
| `AcfHandler.MarkMappable` | includes/class-bulkpostimporter-acf-handler.php:70 | the stored field has 'is_mappable' set to `is_field_mappable(field)` and every other entry unchanged |
| `AcfHandler.FieldsForPostType` | includes/class-bulkpostimporter-acf-handler.php:36-76 | the result has distinct keys, and is empty when ACF is inactive, its functions are missing, or there are no groups |
| `AcfHandler.GetFieldsForPostType` | includes/class-bulkpostimporter-acf-handler.php:36-76 | the nested loops compute `FieldsForPostType` |
| `AcfHandler.AddGroup` | includes/class-bulkpostimporter-acf-handler.php:53-62 | a group adds its fields; a group without 'key' or without fields adds none |
| `AcfHandler.AddFields` | includes/class-bulkpostimporter-acf-handler.php:64-72 | the inner loop adds the group's fields in order |
| `AcfHandler.AddField` | includes/class-bulkpostimporter-acf-handler.php:65-71 | a field without 'key' is skipped; otherwise it is stored under its key, marked |
| `AcfHandler.FieldsForPostTypeStored` | includes/class-bulkpostimporter-acf-handler.php:64-72 | every stored entry is a field array held under its own 'key' with 'is_mappable' equal to `is_field_mappable` |
| `AcfHandler.FieldsForPostTypeLastWins` | includes/class-bulkpostimporter-acf-handler.php:71 | a key holds the last field with that key across all groups; keys no field has are absent |
| `AcfHandler.UpdateField` | includes/class-bulkpostimporter-acf-handler.php:129-136 | false when ACF is inactive or `update_field` is missing, else ACF's answer |
| `AcfHandler.GetFieldObject` | includes/class-bulkpostimporter-acf-handler.php:145-152 | false when ACF is inactive or `get_field_object` is missing, else ACF's field object |
| `FileHandler.ValidateJsonStructure` | includes/class-bulkpostimporter-file-handler.php:187-202 | `invalid_structure` iff not an array; `empty_array` iff the empty array; `invalid_items` iff the first element is not an array; accepted iff none of these |
| `FileHandler.OnlyFirstElementChecked` | includes/class-bulkpostimporter-file-handler.php:197 | elements after the first never change the verdict |
| `FileHandler.StripBom` | includes/class-bulkpostimporter-file-handler.php:159 | one leading EF BB BF is removed and nothing else; content without it is unchanged |
| `FileHandler.StripBomOnce` | includes/class-bulkpostimporter-file-handler.php:159 | exactly one BOM is removed |
| `FileHandler.ReadAndDecodeJson` | includes/class-bulkpostimporter-file-handler.php:140-179 | an error is one of the listed ones; success is the decode of the BOM-stripped content and passes the structure check |
| `FileHandler.TrimAll` | includes/class-bulkpostimporter-file-handler.php:255 | headers are the row's fields, each trimmed |
| `FileHandler.HeaderAt` | includes/class-bulkpostimporter-file-handler.php:269 | field i is named headers[i], or "column_i" past the end of the headers |
| `FileHandler.RowPairs` | includes/class-bulkpostimporter-file-handler.php:268-271 | one assignment per field, by position, header name to trimmed value |
| `FileHandler.ZipRow` | includes/class-bulkpostimporter-file-handler.php:267-271 | a record is an array with distinct keys |
| `FileHandler.ZipRowData` | includes/class-bulkpostimporter-file-handler.php:267-271 | the per-row loop computes `ZipRow` |
| `FileHandler.ZipRowFind` | includes/class-bulkpostimporter-file-handler.php:270 | a duplicate header keeps the value of its last field |
| `FileHandler.ZipRowByPosition` | includes/class-bulkpostimporter-file-handler.php:268-271 | with distinct headers and no extra fields the record is the headers zipped with the trimmed fields |
| `FileHandler.KeptSnoc` | includes/class-bulkpostimporter-file-handler.php:249-251 | a row whose fields are all "" or "0" is skipped; any other row is kept |
| `FileHandler.ParseRowsOutcomes` | includes/class-bulkpostimporter-file-handler.php:253-279 | `empty_csv` iff no kept rows or only a valid header row; `invalid_csv_headers` iff the first kept row is blank once trimmed; success iff a valid header row and a data row |
| `FileHandler.ParseRowsRecords` | includes/class-bulkpostimporter-file-handler.php:266-273 | on success there is one record per kept row after the header, at keys 0, 1, 2, ..., each zipped with the trimmed headers |
| `FileHandler.HandleRow` | includes/class-bulkpostimporter-file-handler.php:248-273 | one pass keeps the loop state: header-found flag, headers and records equal those of the rows kept so far; it fails iff the header row is blank |
| `FileHandler.CsvStopsEarly` | includes/class-bulkpostimporter-file-handler.php:258-260 | once the header row is blank, the whole file fails with `invalid_csv_headers`, whatever follows |
| `FileHandler.BlankLineIgnored` | includes/class-bulkpostimporter-file-handler.php:240-243 | a line that is "" or "0" after trimming has no effect on the rows |
| `FileHandler.LineRowsAppend` | includes/class-bulkpostimporter-file-handler.php:239-246 | the rows of two runs of lines are the rows of each, in order |
| `FileHandler.CsvResult` | includes/class-bulkpostimporter-file-handler.php:210-282 | an error is one of `filesystem_error`, `file_read_error`, `file_open_error`, `invalid_csv_headers`, `empty_csv`; success passes the structure check |
| `FileHandler.ReadAndParseCsv` | includes/class-bulkpostimporter-file-handler.php:210-282 | the method computes `CsvResult` |
| `FileHandler.ParseLines` | includes/class-bulkpostimporter-file-handler.php:239-281 | the line loop computes the row parse of the `str_getcsv` rows of the non-blank trimmed lines |
| `FileHandler.HandleLine` | includes/class-bulkpostimporter-file-handler.php:240-273 | one line pass keeps the loop state over the lines seen so far |
| `FileHandler.FileTypeCheck` | includes/class-bulkpostimporter-file-handler.php:108-129 | accepted iff the lower-cased extension is json or csv and the MIME type is one of the four accepted |
| `FileHandler.ValidateFileUpload` | includes/class-bulkpostimporter-file-handler.php:91-132 | in order: `no_file` iff no non-empty tmp_name; `upload_error` iff then the code is not strictly 0, with that code's message; then `invalid_file_type`, then `invalid_mime_type`; all four as iffs |
| `FileHandler.MissingErrorFieldMessage` | includes/class-bulkpostimporter-file-handler.php:97-101 | an upload without an 'error' field reports the UPLOAD_ERR_NO_FILE message |
| `FileHandler.StageData` | includes/class-bulkpostimporter-file-handler.php:63-83 | a parse error is passed on with the store untouched; success stores data, post_type and file_name under the key and reports the first record's keys and the record count |
| `FileHandler.ParsedData` | includes/class-bulkpostimporter-file-handler.php:49-61 | `unsupported_file_type` iff the extension is neither json nor csv; success passes the structure check |
| `FileHandler.ParseFile` | includes/class-bulkpostimporter-file-handler.php:49-57 | the method picks the parser by the lower-cased extension |
| `FileHandler.UploadOutcome` | includes/class-bulkpostimporter-file-handler.php:25-84 | success reports the parsed data's record count, its first record's keys, the post type, file name and transient key |
| `FileHandler.UploadCheckOrder` | includes/class-bulkpostimporter-file-handler.php:28-46 | a bad nonce hides every other check; an upload problem hides the post type; a bad post type hides the parse |
| `FileHandler.NeverUnsupported` | includes/class-bulkpostimporter-file-handler.php:49-57 | the extension was already validated, so `unsupported_file_type` is never returned |
| `FileHandler.FinishUpload` | includes/class-bulkpostimporter-file-handler.php:39-83 | post type check, parse and staging: the store changes only on success, by the one staged entry |
| `FileHandler.ProcessUploadedFile` | includes/class-bulkpostimporter-file-handler.php:25-84 | the result is `UploadOutcome`; on error the store is unchanged; on success it gains exactly the staged entry under the transient key |
| `LegacyFileHandler.LegacyUploadMessage` | includes/class-bpi-file-handler.php:92-94 | a missing 'error' field is an unknown error; an int code gets its message |
| `LegacyFileHandler.ValidateFileUpload` | includes/class-bpi-file-handler.php:86-124 | `no_file`, then `upload_error` with the legacy message, then the extension and MIME checks, as iffs |
| `LegacyFileHandler.ValidationAgrees` | includes/class-bpi-file-handler.php:86-124 | the two variants agree on every upload except in the text of an upload error |
| `LegacyFileHandler.ReadAndDecodeJson` | includes/class-bpi-file-handler.php:132-159 | as the current variant, without a filesystem error: the BOM-stripped content decoded and structure-checked |
| `LegacyFileHandler.CsvResult` | includes/class-bpi-file-handler.php:190-243 | an error is one of `file_read_error`, `file_open_error`, `invalid_csv_headers`, `empty_csv`; success passes the structure check |
| `LegacyFileHandler.ReadAndParseCsv` | includes/class-bpi-file-handler.php:190-243 | the `fgetcsv` loop computes the row parse of the reader's rows |
| `LegacyFileHandler.ParsedData` | includes/class-bpi-file-handler.php:43-56 | `unsupported_file_type` iff the extension is neither json nor csv; success passes the structure check; the parse never reports a security failure |
| `LegacyFileHandler.UploadOutcome` | includes/class-bpi-file-handler.php:25-79 | there is no nonce check, so `security_check_failed` never comes back |
| `LegacyFileHandler.UploadOutcomeFacts` | includes/class-bpi-file-handler.php:25-79 | an upload problem is reported before parsing; success reports the first record's keys and the record count |
| `LegacyFileHandler.ParseFile` | includes/class-bpi-file-handler.php:43-56 | the method picks the parser by the lower-cased extension |
| `LegacyFileHandler.FinishUpload` | includes/class-bpi-file-handler.php:33-78 | the store changes only on success, by the one staged entry |
| `LegacyFileHandler.ProcessUploadedFile` | includes/class-bpi-file-handler.php:25-79 | the result is `UploadOutcome`; on error the store is unchanged; on success it gains exactly the staged entry |
| `ImportProcessor.MapPostStatus` | includes/class-bulkpostimporter-import-processor.php:283-298 | 'post_status' becomes the sanitized status iff it is a registered status; otherwise a notice quoting the value is appended and the status is kept; nothing else changes |
| `ImportProcessor.SetPostDate` | includes/class-bulkpostimporter-import-processor.php:313-314 | both dates are set from one timestamp, and no other key changes |
| `ImportProcessor.MapPostDate` | includes/class-bulkpostimporter-import-processor.php:308-323 | a date `strtotime` parses sets both dates with no notice; one it cannot parse leaves the post data alone and appends one notice |
| `ImportProcessor.EpochDateRejectedAsWritten` | includes/class-bulkpostimporter-import-processor.php:312 | as written, a date that parses to timestamp 0 is reported as unparseable and leaves the dates unset; the corrected version sets them silently |
| `ImportProcessor.DateAsWrittenElsewhereAgrees` | includes/class-bulkpostimporter-import-processor.php:310-322 | for every timestamp other than 0 the code as written and the corrected version agree |
| `ImportProcessor.StandardStep` | includes/class-bulkpostimporter-import-processor.php:238-269 | the title flag becomes set exactly by a 'post_title' entry whose source key is non-empty and set in the item |
| `ImportProcessor.IntKeyTakesDefault` | includes/class-bulkpostimporter-import-processor.php:244-268 | under PHP 8 an integer `$wp_key` takes the `default` branch: the value is stored under that key, the title flag and the notices are unchanged |
| `ImportProcessor.TitleMappedIff` | includes/class-bulkpostimporter-import-processor.php:229-273 | `map_standard_fields` returns true iff `$mapping['standard']` is an array with a 'post_title' entry whose key is non-empty and set in the item |
| `ImportProcessor.StandardFoldKeepsTitle` | includes/class-bulkpostimporter-import-processor.php:245-247 | once the title is mapped, the post data holds a title |
| `ImportProcessor.StandardFoldNotices` | includes/class-bulkpostimporter-import-processor.php:283-323 | every notice of the standard mapping names this item and is not a skip reason |
| `ImportProcessor.MapStandardEntry` | includes/class-bulkpostimporter-import-processor.php:238-269 | the `switch` body computes `StandardStep` |
| `ImportProcessor.MapStandardFields` | includes/class-bulkpostimporter-import-processor.php:229-273 | the loop computes the fold of `StandardStep` over the standard entries |
| `ImportProcessor.SetMeta` | includes/class-bulkpostimporter-import-processor.php:353 | the meta key is set in 'meta_input'; no other post field changes |
| `ImportProcessor.CustomFoldOthersUnchanged` | includes/class-bulkpostimporter-import-processor.php:332-356 | custom mappings change nothing in the post data but 'meta_input' |
| `ImportProcessor.CustomFoldLastWins` | includes/class-bulkpostimporter-import-processor.php:338-355 | each meta key holds the value from the last usable custom entry that assigns it; other meta keys keep their values |
| `ImportProcessor.MapCustomField` | includes/class-bulkpostimporter-import-processor.php:339-354 | one pass skips an entry unless both keys are non-empty strings and the item has the source key |
| `ImportProcessor.MapCustomFields` | includes/class-bulkpostimporter-import-processor.php:332-356 | the loop applies the custom entries in order |
| `ImportProcessor.KeyValue` | includes/class-bulkpostimporter-import-processor.php:372-378 | the array key handed to ACF reads back as the same key |
| `ImportProcessor.PrepareAcfStaged` | includes/class-bulkpostimporter-import-processor.php:366-383 | every staged ACF value belongs to a mappable field, with ACF active, and is one of the item's values; with ACF inactive nothing is staged |
| `ImportProcessor.PrepareAcfField` | includes/class-bulkpostimporter-import-processor.php:373-381 | one pass stages the item's value iff the source key is a non-empty string set in the item and the field object exists and is mappable |
| `ImportProcessor.PrepareAcfFields` | includes/class-bulkpostimporter-import-processor.php:366-383 | the loop computes the staged fields, a later entry for the same field overwriting |
| `ImportProcessor.AcfWarningsOnFailure` | includes/class-bulkpostimporter-import-processor.php:394-416 | one notice per failed `update_field`, each naming this item and the post id |
| `ImportProcessor.UpdateAcfFields` | includes/class-bulkpostimporter-import-processor.php:394-416 | the loop appends the notices of the failed updates, in order, to the warnings |
| `ImportProcessor.ProcessSingleItem` | includes/class-bulkpostimporter-import-processor.php:163-216 | the method computes `SingleItem`: the result and the request handed to `wp_insert_post`, if any |
| `ImportProcessor.InsertNeedsTitle` | includes/class-bulkpostimporter-import-processor.php:178-198 | an insert is requested iff a title entry applies; otherwise the item is skipped with `missing_title`; a request always carries a title |
| `ImportProcessor.InsertDecides` | includes/class-bulkpostimporter-import-processor.php:198-215 | a failed insert skips the item with the insert's message alone (its notices dropped); a created post is imported whatever ACF returns |
| `ImportProcessor.SingleItemWellReported` | includes/class-bulkpostimporter-import-processor.php:163-216 | a skipped item gives one skip reason naming it; an imported one only notices naming it |
| `ImportProcessor.ItemAtReported` | includes/class-bulkpostimporter-import-processor.php:112-120 | a record that is not an array is skipped for its format, with no mapping or insert |
| `ImportProcessor.Outcomes` | includes/class-bulkpostimporter-import-processor.php:111-133 | one result per record |
| `ImportProcessor.CountsAddUp` | includes/class-bulkpostimporter-import-processor.php:111-133 | every record increments exactly one of the two counters |
| `ImportProcessor.MessagesInOrder` | includes/class-bulkpostimporter-import-processor.php:114-130 | the messages come in record order |
| `ImportProcessor.MessagesSkipCount` | includes/class-bulkpostimporter-import-processor.php:113-126 | the number of skip reasons among the messages equals the skipped count |
| `ImportProcessor.ReportBalances` | includes/class-bulkpostimporter-import-processor.php:111-149 | imported + skipped == total_items; one skip reason per skipped record; messages in record order |
| `ImportProcessor.Tally` | includes/class-bulkpostimporter-import-processor.php:113-131 | one record's result updates the counters and messages as the fold over the results says |
| `ImportProcessor.ProcessItem` | includes/class-bulkpostimporter-import-processor.php:112-122 | one pass of the item loop computes that item's result |
| `ImportProcessor.ProcessItems` | includes/class-bulkpostimporter-import-processor.php:96-150 | the loop's report is `ItemsReport`, whose books `ReportBalances` proves |
| `ImportProcessor.ValidateImportData` | includes/class-bulkpostimporter-import-processor.php:71-85 | valid iff `ImportDataPresent`: the transient key, the post type and the mapping are all set |
| `ImportProcessor.SubmittedMapping` | includes/class-bulkpostimporter-import-processor.php:41-43 | the mapping is an array with distinct keys; a missing or non-array mapping becomes the empty array |
| `ImportProcessor.StagedEntryFields` | includes/class-bulkpostimporter-file-handler.php:69-73 | a transient staged by the upload step yields its data, post type and file name back to the import step |
| `ImportProcessor.ProcessImport` | includes/class-bulkpostimporter-import-processor.php:25-64 | the result is `ImportOutcome`; the transient is deleted iff the import completes or the post type mismatches; otherwise the store is unchanged |
| `ImportProcessor.ImportCheckOrder` | includes/class-bulkpostimporter-import-processor.php:28-64 | `security_check_failed` iff the nonce fails; `missing_data` iff then a form field is unset; `expired_data` iff then the transient is absent or lacks 'data' or 'post_type'; completed iff then its post type is the submitted one |
| `ImportProcessor.ImportRunsOnce` | includes/class-bulkpostimporter-import-processor.php:53-60 | after a completed import or a mismatch, the same form finds its transient gone (`expired_data`) |
| `ImportProcessor.UploadThenImport` | includes/class-bulkpostimporter-import-processor.php:47-63 | what the upload step stages, the import step reports over, under the uploaded file's name |
| `ImportProcessor.OtherPostTypeRejected` | includes/class-bulkpostimporter-import-processor.php:53-56 | a form with another post type than the upload's gets `post_type_mismatch` |

## Left out

- Utils.TextToBlocks: does not split at the UTF-8 forms of NEL, LINE SEPARATOR and PARAGRAPH SEPARATOR (C2 85, E2 80 A8, E2 80 A9), which `\R` under /u would also match. The corrected conversion differs from the code as written only at the byte 0x85.
- PhpString.BaseName: models `basename` for '/' separators only, without the locale-dependent handling of multibyte names.

- File reading, `json_decode`, `str_getcsv`, `fgetcsv`, `mime_content_type` and `WP_Filesystem` are parameters of the `Files` datatype; their behaviour is not modelled, and the CSV field splitter is abstract.
- WordPress functions (`sanitize_*`, `wp_kses_post`, `esc_html`, `strtotime`, `gmdate`, `get_date_from_gmt`, `get_post_stati`, `get_current_user_id`, `wp_insert_post`) are parameters of the `Host` datatype. The database effects of inserting a post and of updating an ACF field are not modelled; only their answers are.
- Nonce and capability checks are a `bool` parameter (the current upload step and `process_import`); `wp_create_nonce` is the `nonce` string parameter of the transient key.
- `wp_unslash` is the identity in the model.
- Transient expiry (`HOUR_IN_SECONDS`) is not modelled; an expired transient is one that is absent from the store.
- The `microtime` duration, `set_time_limit` and `wp_defer_*_counting` are left out of the report.
- Admin notices (`add_admin_notice`, `show_admin_notices`), the admin screens and templates, the plugin bootstrap and `includes/class-bpi-acf-handler.php` are not part of this model.
- Floats are not modelled as PHP values, so `is_numeric` on a float and float array keys do not arise.
- PHP's coercion of numeric string keys to int keys in array literals, assignments and lookups is not modelled (so, for instance, the legacy handler's lookup of an 'error' field "1" gives the unknown-error message here, where PHP finds the `upload_max_filesize` one); only `sanitize_mapping_array`'s explicit `absint` is (through the `isNumericString`/`absintString` host functions).
- A mapping entry whose source key is an array, which PHP rejects with a TypeError, is treated as a key that is not set. Likewise an ACF field whose 'key' is an array, where PHP 8 throws a TypeError at `$acf_fields[$field['key']]`, is skipped (`AcfHandler.FieldAssignment`).
- Translation is not modelled: every message is the untranslated source string that `__()` receives.
- ImportProcessor.StandardStep: follows PHP 8's `switch` comparison. Under PHP 7.4, which the plugin still supports, the integer key 0 equals `'post_title'` loosely: an entry `0 => column` would set the title and make the item importable, where the model stores it under the key 0 (`IntKeyTakesDefault`) and `TitleMappedIff` and `InsertNeedsTitle` skip the item with `missing_title`.
- ImportProcessor.ProcessItems: numbers records by position (item number = position + 1), which is what a decoded JSON list or a parsed CSV file has; staged data with non-list keys would be numbered by its keys in PHP.
- ImportProcessor.ItemsReport: staged 'data' that is not an array is treated as zero records, where PHP 8 stops with a TypeError in `count()`.
- ImportProcessor.MetaOf: a 'meta_input' overwritten by a standard mapping entry with a string is treated as an empty array when custom meta is added, where PHP would fail on the string offset.
- ImportProcessor.PrepareAcf: models `$acf_fields_to_update` as passed in empty, which is the only way `process_single_item` calls it.
- LegacyFileHandler.CsvResult: the rows `fgetcsv` yields are a parameter, so a read failure halfway through the file is not distinguished from its end.

## Findings

| source | as written | input that shows it | evidently intended | confidence | as-written member | corrected member |
|---|---|---|---|---|---|---|
| includes/class-bpi-utils.php:198 | `preg_split('/\R/', ...)` without the /u modifier also splits on the single byte 0x85 (NEL), which is the second byte of UTF-8 characters such as "Å" (C3 85) and "ą" (C4 85) | content "Å": the bytes C3 85 become the line "\xC3" and an empty line, so the block holds a lone, invalid lead byte | split on the same line breaks as without the byte 0x85 (CR LF, LF, VT, FF, CR), keeping multibyte characters whole, as /u would | not executed | `Utils.TextToBlocksAsWritten`, `Utils.AsWrittenSplitsARing` | `Utils.TextToBlocks`, `Utils.ConvertToBlocks` |
| includes/class-bulkpostimporter-import-processor.php:312 | `if ($timestamp)` treats the timestamp 0, which `strtotime` returns for "1970-01-01 00:00:00 UTC", like a parse failure | a post_date of "1970-01-01 00:00:00 UTC": a "Could not parse date" notice, and the date is left unset | reject only `false` (`false !== $timestamp`) | not executed | `ImportProcessor.MapPostDateAsWritten`, `ImportProcessor.EpochDateRejectedAsWritten` | `ImportProcessor.MapPostDate` |
