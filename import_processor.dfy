/**
 * The import step (BULKPOSTIMPORTER_Import_Processor): the staged records
 * are read back from the transient store, each record is mapped to a
 * post-creation request through the standard, custom-meta and ACF parts of
 * the mapping, and the outcomes are counted and their diagnostics collected.
 */
module ImportProcessor {
  import opened PhpValue
  import opened PhpString
  import opened WordPress
  import Utils
  import opened Staging
  import opened AcfHandler
  import FileHandler

  /**
   * The diagnostics an import collects, each naming the 0-based item index
   * it is about; Text() is the message shown (item numbers are index + 1).
   */
  datatype Diagnostic =
    | InvalidFormat(index: nat)
    | MissingTitle(index: nat)
    | PostInsertFailed(index: nat, error: string)
    | InvalidStatus(index: nat, shown: string)
    | UnparsedDate(index: nat, shown: string)
    | AcfUpdateFailed(index: nat, postId: int, fieldLabel: string)
  {
    function Text(): string
    {
      var item := "Item #" + NatToString(index + 1);
      match this
      case InvalidFormat(_) => item + ": Skipped - Invalid data format (expected object/array)."
      case MissingTitle(_) => item + ": Skipped - Missing required field mapping or value for: Title (post_title)."
      case PostInsertFailed(_, e) => item + ": Failed to create post - " + e
      case InvalidStatus(_, s) =>
        item + ": Notice - Invalid status \"" + s + "\" provided for post_status, using default \"publish\"."
      case UnparsedDate(_, s) => item + ": Notice - Could not parse date \"" + s + "\" for post_date, using current time."
      case AcfUpdateFailed(_, p, l) =>
        item + " (Post ID " + IntToString(p) + "): Notice - ACF update potentially failed for field \"" + l
        + "\". Check data format in JSON."
    }

    /** The reasons an item is skipped (as opposed to the notices of an imported one). */
    predicate IsSkipReason()
    {
      InvalidFormat? || MissingTitle? || PostInsertFailed?
    }
  }

  const PostTypeKey: Key := StrKey("post_type")
  const PostStatusKey: Key := StrKey("post_status")
  const PostAuthorKey: Key := StrKey("post_author")
  const MetaInputKey: Key := StrKey("meta_input")
  const PostTitleKey: Key := StrKey("post_title")
  const PostContentKey: Key := StrKey("post_content")
  const PostExcerptKey: Key := StrKey("post_excerpt")
  const PostDateKey: Key := StrKey("post_date")
  const PostDateGmtKey: Key := StrKey("post_date_gmt")
  const StandardKey: Key := StrKey("standard")
  const CustomKey: Key := StrKey("custom")
  const AcfMappingKey: Key := StrKey("acf")
  const JsonKeyKey: Key := StrKey("json_key")
  const MetaKeyKey: Key := StrKey("meta_key")
  const LabelKey: Key := StrKey("label")

  /** The state the by-reference parameters of the standard mapping carry. */
  datatype Mapped = Mapped(postData: seq<Entry>, warnings: seq<Diagnostic>, mappedTitle: bool)

  // ---------------------------------------------------------------------
  // map_post_status, map_post_date

  /**
   * map_post_status: the sanitized status replaces 'post_status' only when it
   * is a registered status; otherwise a notice quoting the value is added.
   */
  function MapPostStatus(value: Value, m: Mapped, index: nat, host: Host): (r: Mapped)
    ensures r.mappedTitle == m.mappedTitle
    ensures var s := host.sanitizeKey(value);
      && Find(r.postData, PostStatusKey) == (if s in host.postStati then Some(Str(s)) else Find(m.postData, PostStatusKey))
      && (forall k :: k != PostStatusKey ==> Find(r.postData, k) == Find(m.postData, k))
      && r.warnings == m.warnings + if s in host.postStati then [] else [InvalidStatus(index, host.escHtml(value))]
  {
    var status := host.sanitizeKey(value);
    if status in host.postStati then Mapped(Put(m.postData, PostStatusKey, Str(status)), m.warnings, m.mappedTitle)
    else Mapped(m.postData, m.warnings + [InvalidStatus(index, host.escHtml(value))], m.mappedTitle)
  }

  /** Both dates set from one timestamp: the local date and the GMT date. */
  function SetPostDate(postData: seq<Entry>, timestamp: int, host: Host): (r: seq<Entry>)
    ensures Find(r, PostDateGmtKey) == Some(Str(host.gmDate(timestamp)))
    ensures Find(r, PostDateKey) == Some(Str(host.dateFromGmt(host.gmDate(timestamp))))
    ensures forall k :: k != PostDateKey && k != PostDateGmtKey ==> Find(r, k) == Find(postData, k)
  {
    var gmt := host.gmDate(timestamp);
    Put(Put(postData, PostDateKey, Str(host.dateFromGmt(gmt))), PostDateGmtKey, Str(gmt))
  }

  /**
   * map_post_date as written: `if ($timestamp)` treats the timestamp 0, a
   * date strtotime parses to the epoch, like a failed parse.
   */
  function MapPostDateAsWritten(value: Value, m: Mapped, index: nat, host: Host): (r: Mapped)
    ensures r.mappedTitle == m.mappedTitle
  {
    var timestamp := host.strToTime(value);
    if timestamp.Some? && timestamp.value != 0 then Mapped(SetPostDate(m.postData, timestamp.value, host), m.warnings, m.mappedTitle)
    else Mapped(m.postData, m.warnings + [UnparsedDate(index, host.escHtml(value))], m.mappedTitle)
  }

  /**
   * map_post_date, with the parse failure told apart from the epoch: a date
   * strtotime parses sets both dates; one it cannot parse adds a notice and
   * leaves the dates unset.
   */
  function MapPostDate(value: Value, m: Mapped, index: nat, host: Host): (r: Mapped)
    ensures r.mappedTitle == m.mappedTitle
    ensures host.strToTime(value).Some? ==>
      && r.postData == SetPostDate(m.postData, host.strToTime(value).value, host)
      && r.warnings == m.warnings
    ensures host.strToTime(value).None? ==>
      r.postData == m.postData && r.warnings == m.warnings + [UnparsedDate(index, host.escHtml(value))]
  {
    var timestamp := host.strToTime(value);
    if timestamp.Some? then Mapped(SetPostDate(m.postData, timestamp.value, host), m.warnings, m.mappedTitle)
    else Mapped(m.postData, m.warnings + [UnparsedDate(index, host.escHtml(value))], m.mappedTitle)
  }

  /** A date that parses to the epoch: rejected as written, set once the parse failure is told apart. */
  lemma EpochDateRejectedAsWritten(value: Value, m: Mapped, index: nat, host: Host)
    requires host.strToTime(value) == Some(0)
    ensures MapPostDateAsWritten(value, m, index, host).postData == m.postData
    ensures MapPostDateAsWritten(value, m, index, host).warnings == m.warnings + [UnparsedDate(index, host.escHtml(value))]
    ensures Find(MapPostDate(value, m, index, host).postData, PostDateGmtKey) == Some(Str(host.gmDate(0)))
    ensures MapPostDate(value, m, index, host).warnings == m.warnings
  {
  }

  /** On every other date the two agree. */
  lemma DateAsWrittenElsewhereAgrees(value: Value, m: Mapped, index: nat, host: Host)
    requires host.strToTime(value) != Some(0)
    ensures MapPostDateAsWritten(value, m, index, host) == MapPostDate(value, m, index, host)
  {
  }

  // ---------------------------------------------------------------------
  // map_standard_fields

  /** The item value a mapping entry names: set, non-empty key. */
  predicate Selects(item: Value, jsonKey: Value)
  {
    !IsEmpty(jsonKey) && IssetBy(item, jsonKey)
  }

  /** The value of the item under a key the mapping selects. */
  function Selected(item: Value, jsonKey: Value): (v: Value)
    requires Selects(item, jsonKey)
  {
    Get(item, AsKey(jsonKey).value)
  }

  /** One pass of the `switch` over a standard mapping entry `$wp_key => $json_key`. */
  function StandardStep(m: Mapped, wpKey: Key, jsonKey: Value, item: Value, index: nat, host: Host): (r: Mapped)
    ensures r.mappedTitle == (m.mappedTitle || (wpKey == PostTitleKey && Selects(item, jsonKey)))
  {
    if !Selects(item, jsonKey) then m
    else
      var value := Selected(item, jsonKey);
      if wpKey == PostTitleKey then
        Mapped(Put(m.postData, PostTitleKey, Str(host.sanitizeTextField(value))), m.warnings, true)
      else if wpKey == PostContentKey then
        Mapped(Put(m.postData, PostContentKey, Str(Utils.TextToBlocks(host.ksesPost(value)))), m.warnings, m.mappedTitle)
      else if wpKey == PostExcerptKey then
        Mapped(Put(m.postData, PostExcerptKey, Str(host.ksesPost(value))), m.warnings, m.mappedTitle)
      else if wpKey == PostStatusKey then MapPostStatus(value, m, index, host)
      else if wpKey == PostDateKey then MapPostDate(value, m, index, host)
      else Mapped(Put(m.postData, wpKey, Str(host.sanitizeTextField(value))), m.warnings, m.mappedTitle)
  }

  /**
   * PHP 8 compares an integer `$wp_key` with the string `case` labels as
   * strings, so it matches none of them: the entry lands in the `default`
   * branch, under its own key, and never maps the title.
   */
  lemma IntKeyTakesDefault(m: Mapped, n: int, jsonKey: Value, item: Value, index: nat, host: Host)
    requires Selects(item, jsonKey)
    ensures var r := StandardStep(m, IntKey(n), jsonKey, item, index, host);
      && r.mappedTitle == m.mappedTitle
      && r.warnings == m.warnings
      && r.postData == Put(m.postData, IntKey(n), Str(host.sanitizeTextField(Selected(item, jsonKey))))
  {
  }

  /** The standard entries applied in order. */
  function StandardFold(m: Mapped, entries: seq<Entry>, item: Value, index: nat, host: Host): Mapped
  {
    if entries == [] then m
    else
      var last := entries[|entries| - 1];
      StandardStep(StandardFold(m, entries[..|entries| - 1], item, index, host), last.key, last.val, item, index, host)
  }

  lemma StandardFoldStep(m: Mapped, entries: seq<Entry>, i: nat, item: Value, index: nat, host: Host)
    requires i < |entries|
    ensures StandardFold(m, entries[..i + 1], item, index, host)
         == StandardStep(StandardFold(m, entries[..i], item, index, host), entries[i].key, entries[i].val, item, index, host)
  {
    assert entries[..i + 1][..i] == entries[..i];
  }

  /** `$mapping['standard']` when it is set and an array, else nothing to map. */
  function StandardEntries(mapping: Value): seq<Entry>
  {
    if Isset(mapping, StandardKey) && Get(mapping, StandardKey).Arr? then Get(mapping, StandardKey).entries else []
  }

  /** What map_standard_fields leaves in its by-reference parameters, and the flag it returns. */
  function MapStandard(item: Value, mapping: Value, postData: seq<Entry>, warnings: seq<Diagnostic>, index: nat, host: Host)
    : Mapped
  {
    StandardFold(Mapped(postData, warnings, false), StandardEntries(mapping), item, index, host)
  }

  /** A standard entry that maps the title from a value the item has. */
  predicate TitleEntry(e: Entry, item: Value)
  {
    e.key == PostTitleKey && Selects(item, e.val)
  }

  /** Some entry maps the title from a value the item has. */
  predicate HasTitleEntry(entries: seq<Entry>, item: Value)
  {
    entries != [] && (HasTitleEntry(entries[..|entries| - 1], item) || TitleEntry(entries[|entries| - 1], item))
  }

  lemma {:induction false} HasTitleEntryIff(entries: seq<Entry>, item: Value)
    ensures HasTitleEntry(entries, item) <==> exists j :: 0 <= j < |entries| && TitleEntry(entries[j], item)
  {
    if entries != [] {
      var init := entries[..|entries| - 1];
      var n := |entries| - 1;
      HasTitleEntryIff(init, item);
      if HasTitleEntry(init, item) {
        var j :| 0 <= j < |init| && TitleEntry(init[j], item);
        assert init[j] == entries[j];
      } else if TitleEntry(entries[n], item) {
      } else {
        forall j | 0 <= j < |entries| ensures !TitleEntry(entries[j], item) {
          if j < n {
            assert init[j] == entries[j];
          }
        }
      }
    }
  }

  /** The title flag is set exactly when some entry maps the title from a value the item has. */
  lemma {:induction false} StandardFoldTitle(m: Mapped, entries: seq<Entry>, item: Value, index: nat, host: Host)
    ensures StandardFold(m, entries, item, index, host).mappedTitle <==> m.mappedTitle || HasTitleEntry(entries, item)
  {
    if entries != [] {
      var init := entries[..|entries| - 1];
      var last := entries[|entries| - 1];
      StandardFoldTitle(m, init, item, index, host);
      var prev := StandardFold(m, init, item, index, host);
      assert StandardFold(m, entries, item, index, host) == StandardStep(prev, last.key, last.val, item, index, host);
    }
  }

  /**
   * map_standard_fields returns true exactly when `$mapping['standard']`
   * is an array with a 'post_title' entry whose source key is non-empty and
   * set in the item.
   */
  lemma TitleMappedIff(item: Value, mapping: Value, postData: seq<Entry>, warnings: seq<Diagnostic>, index: nat, host: Host)
    ensures MapStandard(item, mapping, postData, warnings, index, host).mappedTitle <==>
      var es := StandardEntries(mapping); exists j :: 0 <= j < |es| && TitleEntry(es[j], item)
  {
    StandardFoldTitle(Mapped(postData, warnings, false), StandardEntries(mapping), item, index, host);
    HasTitleEntryIff(StandardEntries(mapping), item);
  }

  /** The `switch` body for one standard entry. */
  method MapStandardEntry(wpKey: Key, jsonKey: Value, item: Value, index: nat, host: Host,
                          postData: seq<Entry>, warnings: seq<Diagnostic>, mappedTitle: bool)
    returns (postData': seq<Entry>, warnings': seq<Diagnostic>, mappedTitle': bool)
    ensures Mapped(postData', warnings', mappedTitle')
         == StandardStep(Mapped(postData, warnings, mappedTitle), wpKey, jsonKey, item, index, host)
  {
    postData', warnings', mappedTitle' := postData, warnings, mappedTitle;
    if IsEmpty(jsonKey) || !IssetBy(item, jsonKey) {
      return;
    }
    var value := Get(item, AsKey(jsonKey).value);
    if wpKey == PostTitleKey {
      postData' := Put(postData, PostTitleKey, Str(host.sanitizeTextField(value)));
      mappedTitle' := true;
    } else if wpKey == PostContentKey {
      var blocks := Utils.ConvertToBlocks(value, host);
      postData' := Put(postData, PostContentKey, Str(blocks));
    } else if wpKey == PostExcerptKey {
      postData' := Put(postData, PostExcerptKey, Str(host.ksesPost(value)));
    } else if wpKey == PostStatusKey {
      var r := MapPostStatus(value, Mapped(postData, warnings, mappedTitle), index, host);
      postData', warnings' := r.postData, r.warnings;
    } else if wpKey == PostDateKey {
      var r := MapPostDate(value, Mapped(postData, warnings, mappedTitle), index, host);
      postData', warnings' := r.postData, r.warnings;
    } else {
      postData' := Put(postData, wpKey, Str(host.sanitizeTextField(value)));
    }
  }

  /** map_standard_fields: the loop over `$mapping['standard']`. */
  method MapStandardFields(item: Value, mapping: Value, postData: seq<Entry>, index: nat, host: Host,
                           warnings: seq<Diagnostic>)
    returns (mappedTitle: bool, postData': seq<Entry>, warnings': seq<Diagnostic>)
    ensures Mapped(postData', warnings', mappedTitle) == MapStandard(item, mapping, postData, warnings, index, host)
  {
    mappedTitle, postData', warnings' := false, postData, warnings;
    if !Isset(mapping, StandardKey) || !Get(mapping, StandardKey).Arr? {
      return;
    }
    var entries := Get(mapping, StandardKey).entries;
    var i := 0;
    while i < |entries|
      invariant 0 <= i <= |entries|
      invariant Mapped(postData', warnings', mappedTitle)
             == StandardFold(Mapped(postData, warnings, false), entries[..i], item, index, host)
    {
      StandardFoldStep(Mapped(postData, warnings, false), entries, i, item, index, host);
      postData', warnings', mappedTitle :=
        MapStandardEntry(entries[i].key, entries[i].val, item, index, host, postData', warnings', mappedTitle);
      i := i + 1;
    }
    assert entries[..i] == entries;
  }

  // ---------------------------------------------------------------------
  // map_custom_fields

  /** A custom mapping entry both of whose keys are non-empty strings. */
  predicate UsableCustomMap(customMap: Value)
  {
    && Isset(customMap, JsonKeyKey) && Isset(customMap, MetaKeyKey)
    && Get(customMap, JsonKeyKey).Str? && Get(customMap, MetaKeyKey).Str?
    && Get(customMap, JsonKeyKey).s != "" && Get(customMap, MetaKeyKey).s != ""
  }

  /** The meta assignment one custom mapping entry makes for the item, if any. */
  function MetaAssignment(customMap: Value, item: Value): (r: seq<Entry>)
    ensures |r| <= 1
  {
    if UsableCustomMap(customMap) && Isset(item, StrKey(Get(customMap, JsonKeyKey).s)) then
      [Entry(StrKey(Get(customMap, MetaKeyKey).s), Get(item, StrKey(Get(customMap, JsonKeyKey).s)))]
    else []
  }

  /** The meta assignments of the custom mapping entries, in order. */
  function MetaAssignments(customMaps: seq<Value>, item: Value): seq<Entry>
  {
    if customMaps == [] then []
    else MetaAssignments(customMaps[..|customMaps| - 1], item) + MetaAssignment(customMaps[|customMaps| - 1], item)
  }

  /** `$post_data['meta_input']` as an array (an array is what process_single_item puts there). */
  function MetaOf(postData: seq<Entry>): seq<Entry>
  {
    match Find(postData, MetaInputKey)
    case Some(Arr(es)) => es
    case _ => []
  }

  /** `$post_data['meta_input'][$meta_key] = $value` */
  function SetMeta(postData: seq<Entry>, metaKey: Key, value: Value): (r: seq<Entry>)
    ensures MetaOf(r) == Put(MetaOf(postData), metaKey, value)
    ensures forall k :: k != MetaInputKey ==> Find(r, k) == Find(postData, k)
  {
    Put(postData, MetaInputKey, Arr(Put(MetaOf(postData), metaKey, value)))
  }

  /** The custom mapping entries applied to the post data in order. */
  function CustomFold(postData: seq<Entry>, customMaps: seq<Value>, item: Value): seq<Entry>
  {
    if customMaps == [] then postData
    else
      CustomStep(CustomFold(postData, customMaps[..|customMaps| - 1], item), customMaps[|customMaps| - 1], item)
  }

  /** `$mapping['custom']` when it is set and an array, else nothing to map. */
  function CustomMaps(mapping: Value): seq<Value>
  {
    if Isset(mapping, CustomKey) && Get(mapping, CustomKey).Arr? then ValuesOf(Get(mapping, CustomKey).entries) else []
  }

  /** Custom mappings touch 'meta_input' and nothing else of the post data. */
  lemma {:induction false} CustomFoldOthersUnchanged(postData: seq<Entry>, customMaps: seq<Value>, item: Value, k: Key)
    requires k != MetaInputKey
    ensures Find(CustomFold(postData, customMaps, item), k) == Find(postData, k)
  {
    if customMaps != [] {
      CustomFoldOthersUnchanged(postData, customMaps[..|customMaps| - 1], item, k);
    }
  }

  /**
   * Each meta key ends up with the value of the last custom mapping entry
   * that assigns it; a meta key no entry assigns keeps its earlier value.
   */
  lemma {:induction false} CustomFoldLastWins(postData: seq<Entry>, customMaps: seq<Value>, item: Value, k: Key)
    ensures var assignments := MetaAssignments(customMaps, item);
      var i := LastKeyIndex(assignments, k);
      Find(MetaOf(CustomFold(postData, customMaps, item)), k)
        == if i < 0 then Find(MetaOf(postData), k) else Some(assignments[i].val)
  {
    if customMaps != [] {
      var init := customMaps[..|customMaps| - 1];
      var a := MetaAssignment(customMaps[|customMaps| - 1], item);
      CustomFoldLastWins(postData, init, item, k);
      var before := MetaAssignments(init, item);
      var assignments := MetaAssignments(customMaps, item);
      assert assignments == before + a;
      if a == [] {
        assert assignments == before;
      } else {
        assert assignments[..|assignments| - 1] == before;
        PutFind(MetaOf(CustomFold(postData, init, item)), a[0].key, a[0].val, k);
        if a[0].key != k {
          var i := LastKeyIndex(before, k);
          assert i >= 0 ==> assignments[i] == before[i];
        }
      }
    }
  }

  /** One custom mapping entry applied as CustomFold applies it. */
  function CustomStep(postData: seq<Entry>, customMap: Value, item: Value): seq<Entry>
  {
    var a := MetaAssignment(customMap, item);
    if a == [] then postData else SetMeta(postData, a[0].key, a[0].val)
  }

  lemma CustomFoldStep(postData: seq<Entry>, customMaps: seq<Value>, i: nat, item: Value)
    requires i < |customMaps|
    ensures CustomFold(postData, customMaps[..i + 1], item)
         == CustomStep(CustomFold(postData, customMaps[..i], item), customMaps[i], item)
  {
    assert customMaps[..i + 1][..i] == customMaps[..i];
  }

  /** The body of the custom mapping loop. */
  method MapCustomField(customMap: Value, item: Value, postData: seq<Entry>) returns (postData': seq<Entry>)
    ensures postData' == CustomStep(postData, customMap, item)
  {
    postData' := postData;
    if !UsableCustomMap(customMap) {
      return;
    }
    var jsonKey := Get(customMap, JsonKeyKey).s;
    var metaKey := Get(customMap, MetaKeyKey).s;
    if Isset(item, StrKey(jsonKey)) {
      postData' := SetMeta(postData, StrKey(metaKey), Get(item, StrKey(jsonKey)));
    }
  }

  /** map_custom_fields: the loop over `$mapping['custom']`. */
  method MapCustomFields(item: Value, mapping: Value, postData: seq<Entry>) returns (postData': seq<Entry>)
    ensures postData' == CustomFold(postData, CustomMaps(mapping), item)
  {
    postData' := postData;
    if !Isset(mapping, CustomKey) || !Get(mapping, CustomKey).Arr? {
      return;
    }
    var customMaps := ValuesOf(Get(mapping, CustomKey).entries);
    var i := 0;
    while i < |customMaps|
      invariant 0 <= i <= |customMaps|
      invariant postData' == CustomFold(postData, customMaps[..i], item)
    {
      CustomFoldStep(postData, customMaps, i, item);
      postData' := MapCustomField(customMaps[i], item, postData');
      i := i + 1;
    }
    assert customMaps[..i] == customMaps;
  }

  // ---------------------------------------------------------------------
  // prepare_acf_fields, update_acf_fields

  /** An array key passed on as a PHP value (the field key handed to ACF). */
  function KeyValue(k: Key): (v: Value)
    ensures AsKey(v) == Some(k)
  {
    match k
    case IntKey(i) => Int(i)
    case StrKey(s) => Str(s)
  }

  /**
   * An ACF mapping entry `$acf_field_key => $json_key` that stages a value:
   * the source key is a non-empty string set in the item, and ACF reports the
   * field as existing (truthy) and of a mappable type.
   */
  predicate Stageable(acf: Acf, fieldKey: Key, jsonKey: Value, item: Value)
  {
    && jsonKey.Str? && jsonKey.s != "" && Isset(item, StrKey(jsonKey.s))
    && var fieldObject := GetFieldObject(acf, KeyValue(fieldKey), 0);
    !IsEmpty(fieldObject) && IsFieldMappable(fieldObject)
  }

  /** The assignment one ACF mapping entry stages, if any. */
  function AcfAssignment(acf: Acf, e: Entry, item: Value): (r: seq<Entry>)
    ensures |r| <= 1
  {
    if Stageable(acf, e.key, e.val, item) then [Entry(e.key, Get(item, StrKey(e.val.s)))] else []
  }

  /** The staged assignments of the ACF mapping entries, in order. */
  function AcfAssignments(acf: Acf, entries: seq<Entry>, item: Value): seq<Entry>
  {
    if entries == [] then []
    else AcfAssignments(acf, entries[..|entries| - 1], item) + AcfAssignment(acf, entries[|entries| - 1], item)
  }

  /** `$mapping['acf']` when ACF is active and the entry is set and an array, else nothing. */
  function AcfEntries(acf: Acf, mapping: Value): seq<Entry>
  {
    if IsActive(acf) && Isset(mapping, AcfMappingKey) && Get(mapping, AcfMappingKey).Arr? then
      Get(mapping, AcfMappingKey).entries
    else []
  }

  /** What prepare_acf_fields leaves in `$acf_fields_to_update` (passed in empty). */
  function PrepareAcf(acf: Acf, item: Value, mapping: Value): seq<Entry>
  {
    PutAll(AcfAssignments(acf, AcfEntries(acf, mapping), item))
  }

  /** A staged ACF value: ACF is active, its field is mappable, and the value is one of the item's. */
  predicate StagedFromItem(acf: Acf, e: Entry, item: Value)
  {
    && IsActive(acf)
    && IsFieldMappable(GetFieldObject(acf, KeyValue(e.key), 0))
    && item.Arr? && e.val in ValuesOf(item.entries)
  }

  lemma GetInValues(item: Value, k: Key)
    requires Isset(item, k)
    ensures Get(item, k) in ValuesOf(item.entries)
  {
    var i :| 0 <= i < |item.entries| && item.entries[i] == Entry(k, Get(item, k));
    assert ValuesOf(item.entries)[i] == Get(item, k);
  }

  lemma {:induction false} AcfAssignmentsStaged(acf: Acf, entries: seq<Entry>, item: Value)
    ensures forall e :: e in AcfAssignments(acf, entries, item) ==> StagedFromItem(acf, e, item)
  {
    if entries != [] {
      var last := entries[|entries| - 1];
      AcfAssignmentsStaged(acf, entries[..|entries| - 1], item);
      if Stageable(acf, last.key, last.val, item) {
        GetInValues(item, StrKey(last.val.s));
      }
    }
  }

  /**
   * Only mappable fields of an active ACF are staged, and only with values
   * taken from the item; without ACF nothing is staged.
   */
  lemma PrepareAcfStaged(acf: Acf, item: Value, mapping: Value)
    ensures forall e :: e in PrepareAcf(acf, item, mapping) ==> StagedFromItem(acf, e, item)
    ensures !IsActive(acf) ==> PrepareAcf(acf, item, mapping) == []
  {
    AcfAssignmentsStaged(acf, AcfEntries(acf, mapping), item);
    PutAllMembers(AcfAssignments(acf, AcfEntries(acf, mapping), item));
  }

  lemma AcfAssignmentsStep(acf: Acf, entries: seq<Entry>, i: nat, item: Value)
    requires i < |entries|
    ensures AcfAssignments(acf, entries[..i + 1], item)
         == AcfAssignments(acf, entries[..i], item) + AcfAssignment(acf, entries[i], item)
  {
    assert entries[..i + 1][..i] == entries[..i];
  }

  /** The body of the ACF mapping loop. */
  method PrepareAcfField(acf: Acf, e: Entry, item: Value, acfFieldsToUpdate: seq<Entry>, ghost staged: seq<Entry>)
    returns (acfFieldsToUpdate': seq<Entry>)
    requires acfFieldsToUpdate == PutAll(staged)
    ensures acfFieldsToUpdate' == PutAll(staged + AcfAssignment(acf, e, item))
  {
    acfFieldsToUpdate' := acfFieldsToUpdate;
    var jsonKey := e.val;
    if !jsonKey.Str? || jsonKey.s == "" || !Isset(item, StrKey(jsonKey.s)) {
      assert staged + AcfAssignment(acf, e, item) == staged;
      return;
    }
    var fieldObject := GetFieldObject(acf, KeyValue(e.key), 0);
    if !IsEmpty(fieldObject) && IsFieldMappable(fieldObject) {
      PutAllSnoc(staged, Entry(e.key, Get(item, StrKey(jsonKey.s))));
      acfFieldsToUpdate' := Put(acfFieldsToUpdate, e.key, Get(item, StrKey(jsonKey.s)));
    } else {
      assert staged + AcfAssignment(acf, e, item) == staged;
    }
  }

  /** prepare_acf_fields: the loop over `$mapping['acf']`. */
  method PrepareAcfFields(item: Value, mapping: Value, acf: Acf) returns (acfFieldsToUpdate: seq<Entry>)
    ensures acfFieldsToUpdate == PrepareAcf(acf, item, mapping)
  {
    acfFieldsToUpdate := [];
    if !IsActive(acf) || !Isset(mapping, AcfMappingKey) || !Get(mapping, AcfMappingKey).Arr? {
      return;
    }
    var entries := Get(mapping, AcfMappingKey).entries;
    var i := 0;
    while i < |entries|
      invariant 0 <= i <= |entries|
      invariant acfFieldsToUpdate == PutAll(AcfAssignments(acf, entries[..i], item))
    {
      AcfAssignmentsStep(acf, entries, i, item);
      acfFieldsToUpdate := PrepareAcfField(acf, entries[i], item, acfFieldsToUpdate, AcfAssignments(acf, entries[..i], item));
      i := i + 1;
    }
    assert entries[..i] == entries;
  }

  /** The notice for one staged field whose update_field call fails, if it does. */
  function AcfWarning(acf: Acf, e: Entry, postId: int, index: nat, host: Host): (r: seq<Diagnostic>)
    ensures |r| <= 1
  {
    if UpdateField(acf, KeyValue(e.key), e.val, postId) then []
    else
      var fieldObject := GetFieldObject(acf, KeyValue(e.key), postId);
      var fieldLabel := if !IsEmpty(fieldObject) then GetOrNull(fieldObject, LabelKey) else KeyValue(e.key);
      [AcfUpdateFailed(index, postId, host.escHtml(fieldLabel))]
  }

  /** The notices of update_acf_fields, in the order of the staged fields. */
  function AcfWarnings(acf: Acf, staged: seq<Entry>, postId: int, index: nat, host: Host): seq<Diagnostic>
  {
    if staged == [] then []
    else AcfWarnings(acf, staged[..|staged| - 1], postId, index, host) + AcfWarning(acf, staged[|staged| - 1], postId, index, host)
  }

  /** The number of staged fields whose update fails. */
  function FailedUpdates(acf: Acf, staged: seq<Entry>, postId: int): nat
  {
    if staged == [] then 0
    else
      var last := staged[|staged| - 1];
      FailedUpdates(acf, staged[..|staged| - 1], postId) + if UpdateField(acf, KeyValue(last.key), last.val, postId) then 0 else 1
  }

  /**
   * One notice per failed update, each naming the item and the post; with
   * ACF inactive every staged field counts as failed.
   */
  lemma {:induction false} AcfWarningsOnFailure(acf: Acf, staged: seq<Entry>, postId: int, index: nat, host: Host)
    ensures |AcfWarnings(acf, staged, postId, index, host)| == FailedUpdates(acf, staged, postId)
    ensures forall d :: d in AcfWarnings(acf, staged, postId, index, host) ==>
      d.AcfUpdateFailed? && d.index == index && d.postId == postId
  {
    if staged != [] {
      AcfWarningsOnFailure(acf, staged[..|staged| - 1], postId, index, host);
    }
  }

  /** update_acf_fields: the loop over the staged fields. */
  method UpdateAcfFields(staged: seq<Entry>, postId: int, acf: Acf, index: nat, host: Host, warnings: seq<Diagnostic>)
    returns (warnings': seq<Diagnostic>)
    ensures warnings' == warnings + AcfWarnings(acf, staged, postId, index, host)
  {
    warnings' := warnings;
    if staged == [] {
      return;
    }
    var i := 0;
    while i < |staged|
      invariant 0 <= i <= |staged|
      invariant warnings' == warnings + AcfWarnings(acf, staged[..i], postId, index, host)
    {
      var fieldKey := staged[i].key;
      assert staged[..i + 1][..i] == staged[..i];
      var updateResult := UpdateField(acf, KeyValue(fieldKey), staged[i].val, postId);
      if !updateResult {
        var fieldObject := GetFieldObject(acf, KeyValue(fieldKey), postId);
        var fieldLabel := if !IsEmpty(fieldObject) then GetOrNull(fieldObject, LabelKey) else KeyValue(fieldKey);
        warnings' := warnings' + [AcfUpdateFailed(index, postId, host.escHtml(fieldLabel))];
      }
      i := i + 1;
    }
    assert staged[..i] == staged;
  }

  // ---------------------------------------------------------------------
  // process_single_item

  /** The post data process_single_item starts from. */
  function InitialPostData(postType: string, host: Host): seq<Entry>
  {
    [ Entry(PostTypeKey, Str(postType)), Entry(PostStatusKey, Str("publish")),
      Entry(PostAuthorKey, Int(host.currentUserId)), Entry(MetaInputKey, Arr([])) ]
  }

  /** How one item ends: a post created (with its notices), or skipped for one reason. */
  datatype ItemResult = Imported(postId: int, warnings: seq<Diagnostic>) | Skipped(reason: Diagnostic)

  /** The item's result, and the post data handed to wp_insert_post if the item got that far. */
  datatype ItemOutcome = ItemOutcome(result: ItemResult, request: Option<Value>)

  /**
   * process_single_item: no title, no insert; a failed insert skips the item
   * and drops its notices; a created post keeps the notices of the standard
   * mapping followed by those of the ACF updates.
   */
  function SingleItem(item: Value, index: nat, postType: string, mapping: Value, acf: Acf, host: Host): ItemOutcome
  {
    var standard := MapStandard(item, mapping, InitialPostData(postType, host), [], index, host);
    if !standard.mappedTitle then ItemOutcome(Skipped(MissingTitle(index)), None)
    else
      var request := Arr(CustomFold(standard.postData, CustomMaps(mapping), item));
      match host.insertPost(request)
      case InsertFailed(e) => ItemOutcome(Skipped(PostInsertFailed(index, e)), Some(request))
      case Inserted(postId) =>
        ItemOutcome(Imported(postId, standard.warnings + AcfWarnings(acf, PrepareAcf(acf, item, mapping), postId, index, host)),
                    Some(request))
  }

  /** process_single_item */
  method ProcessSingleItem(item: Value, index: nat, postType: string, mapping: Value, acf: Acf, host: Host)
    returns (result: ItemResult, request: Option<Value>)
    ensures ItemOutcome(result, request) == SingleItem(item, index, postType, mapping, acf, host)
  {
    var warnings: seq<Diagnostic> := [];
    var postData := InitialPostData(postType, host);
    var mappedTitle;
    mappedTitle, postData, warnings := MapStandardFields(item, mapping, postData, index, host, warnings);
    if !mappedTitle {
      return Skipped(MissingTitle(index)), None;
    }
    postData := MapCustomFields(item, mapping, postData);
    var acfFieldsToUpdate := PrepareAcfFields(item, mapping, acf);
    request := Some(Arr(postData));
    var postId := host.insertPost(Arr(postData));
    if postId.InsertFailed? {
      return Skipped(PostInsertFailed(index, postId.message)), request;
    }
    warnings := UpdateAcfFields(acfFieldsToUpdate, postId.postId, acf, index, host, warnings);
    result := Imported(postId.postId, warnings);
  }

  /** Every notice of the standard mapping is about this item, and none is a skip reason. */
  predicate ItemNotices(ds: seq<Diagnostic>, index: nat)
  {
    forall d :: d in ds ==> d.index == index && !d.IsSkipReason()
  }

  lemma {:induction false} StandardFoldNotices(m: Mapped, entries: seq<Entry>, item: Value, index: nat, host: Host)
    requires ItemNotices(m.warnings, index)
    ensures ItemNotices(StandardFold(m, entries, item, index, host).warnings, index)
  {
    if entries != [] {
      StandardFoldNotices(m, entries[..|entries| - 1], item, index, host);
    }
  }

  /** A mapped title stays in the post data through one standard entry. */
  lemma StandardStepKeepsTitle(m: Mapped, wpKey: Key, jsonKey: Value, item: Value, index: nat, host: Host)
    requires m.mappedTitle ==> Find(m.postData, PostTitleKey).Some?
    ensures var r := StandardStep(m, wpKey, jsonKey, item, index, host);
      r.mappedTitle ==> Find(r.postData, PostTitleKey).Some?
  {
  }

  /** Once the title is mapped it stays in the post data. */
  lemma {:induction false} StandardFoldKeepsTitle(m: Mapped, entries: seq<Entry>, item: Value, index: nat, host: Host)
    requires m.mappedTitle ==> Find(m.postData, PostTitleKey).Some?
    ensures var r := StandardFold(m, entries, item, index, host);
      r.mappedTitle ==> Find(r.postData, PostTitleKey).Some?
  {
    if entries != [] {
      var init := entries[..|entries| - 1];
      var last := entries[|entries| - 1];
      StandardFoldKeepsTitle(m, init, item, index, host);
      var prev := StandardFold(m, init, item, index, host);
      StandardStepKeepsTitle(prev, last.key, last.val, item, index, host);
      assert StandardFold(m, entries, item, index, host) == StandardStep(prev, last.key, last.val, item, index, host);
    }
  }

  /**
   * An insert is requested exactly when the standard mapping maps the title
   * from a value the item has, and the request then holds a title; with no
   * such entry the item is skipped for the missing title.
   */
  lemma InsertNeedsTitle(item: Value, index: nat, postType: string, mapping: Value, acf: Acf, host: Host)
    ensures var o := SingleItem(item, index, postType, mapping, acf, host);
      var es := StandardEntries(mapping);
      && (o.request.Some? <==> exists j :: 0 <= j < |es| && TitleEntry(es[j], item))
      && (o.request.None? ==> o.result == Skipped(MissingTitle(index)))
      && (o.request.Some? ==> o.request.value.Arr? && Find(o.request.value.entries, PostTitleKey).Some?)
  {
    var init := InitialPostData(postType, host);
    TitleMappedIff(item, mapping, init, [], index, host);
    StandardFoldKeepsTitle(Mapped(init, [], false), StandardEntries(mapping), item, index, host);
    var standard := MapStandard(item, mapping, init, [], index, host);
    CustomFoldOthersUnchanged(standard.postData, CustomMaps(mapping), item, PostTitleKey);
  }

  /**
   * A failed insert skips the item with the insert's error alone; a created
   * post counts as imported whatever its ACF updates return.
   */
  lemma InsertDecides(item: Value, index: nat, postType: string, mapping: Value, acf: Acf, host: Host)
    ensures var o := SingleItem(item, index, postType, mapping, acf, host);
      o.request.Some? ==>
        match host.insertPost(o.request.value)
        case InsertFailed(e) => o.result == Skipped(PostInsertFailed(index, e))
        case Inserted(postId) => o.result.Imported? && o.result.postId == postId
  {
  }

  /** The messages one item contributes to the report. */
  function ResultMessages(r: ItemResult): seq<Diagnostic>
  {
    match r
    case Skipped(d) => [d]
    case Imported(_, ws) => ws
  }

  /** An item's messages all name it; a skipped item gives one skip reason, an imported one only notices. */
  predicate WellReported(r: ItemResult, index: nat)
  {
    match r
    case Skipped(d) => d.index == index && d.IsSkipReason()
    case Imported(_, ws) => ItemNotices(ws, index)
  }

  lemma SingleItemWellReported(item: Value, index: nat, postType: string, mapping: Value, acf: Acf, host: Host)
    ensures WellReported(SingleItem(item, index, postType, mapping, acf, host).result, index)
  {
    var init := InitialPostData(postType, host);
    StandardFoldNotices(Mapped(init, [], false), StandardEntries(mapping), item, index, host);
    var o := SingleItem(item, index, postType, mapping, acf, host);
    if o.result.Imported? {
      AcfWarningsOnFailure(acf, PrepareAcf(acf, item, mapping), o.result.postId, index, host);
    }
  }

  // ---------------------------------------------------------------------
  // process_items

  /** One pass of the item loop: a non-array item is skipped before any mapping. */
  function ItemAt(item: Value, index: nat, postType: string, mapping: Value, acf: Acf, host: Host): ItemOutcome
  {
    if !item.Arr? then ItemOutcome(Skipped(InvalidFormat(index)), None)
    else SingleItem(item, index, postType, mapping, acf, host)
  }

  /**
   * A record that is not an array is skipped for its format and never
   * reaches wp_insert_post; whatever happens, the item's messages name it.
   */
  lemma ItemAtReported(item: Value, index: nat, postType: string, mapping: Value, acf: Acf, host: Host)
    ensures var o := ItemAt(item, index, postType, mapping, acf, host);
      && (!item.Arr? ==> o == ItemOutcome(Skipped(InvalidFormat(index)), None))
      && WellReported(o.result, index)
  {
    if item.Arr? {
      SingleItemWellReported(item, index, postType, mapping, acf, host);
    }
  }

  /** The results of the items, by position. */
  function Outcomes(items: seq<Value>, postType: string, mapping: Value, acf: Acf, host: Host): (rs: seq<ItemResult>)
    ensures |rs| == |items|
  {
    if items == [] then []
    else
      Outcomes(items[..|items| - 1], postType, mapping, acf, host)
      + [ItemAt(items[|items| - 1], |items| - 1, postType, mapping, acf, host).result]
  }

  lemma {:induction false} OutcomesAt(items: seq<Value>, postType: string, mapping: Value, acf: Acf, host: Host, i: nat)
    requires i < |items|
    ensures Outcomes(items, postType, mapping, acf, host)[i] == ItemAt(items[i], i, postType, mapping, acf, host).result
  {
    if i < |items| - 1 {
      var init := items[..|items| - 1];
      OutcomesAt(init, postType, mapping, acf, host, i);
      assert init[i] == items[i];
    }
  }

  function ImportedCount(rs: seq<ItemResult>): nat
  {
    if rs == [] then 0 else ImportedCount(rs[..|rs| - 1]) + if rs[|rs| - 1].Imported? then 1 else 0
  }

  function SkippedCount(rs: seq<ItemResult>): nat
  {
    if rs == [] then 0 else SkippedCount(rs[..|rs| - 1]) + if rs[|rs| - 1].Skipped? then 1 else 0
  }

  /** `$error_messages`: the skip reasons and notices of the items, in item order. */
  function Messages(rs: seq<ItemResult>): seq<Diagnostic>
  {
    if rs == [] then [] else Messages(rs[..|rs| - 1]) + ResultMessages(rs[|rs| - 1])
  }

  /** The array process_items returns, without its duration. */
  datatype ImportReport = ImportReport(
    importedCount: nat,
    skippedCount: nat,
    errorMessages: seq<Diagnostic>,
    originalFileName: Value,
    totalItems: nat)

  /** The records the loop visits: the values of the staged array, in order. */
  function ItemList(items: Value): seq<Value>
  {
    if items.Arr? then ValuesOf(items.entries) else []
  }

  /** What process_items reports for the staged records. */
  function ItemsReport(items: Value, postType: string, mapping: Value, fileName: Value, acf: Acf, host: Host)
    : ImportReport
  {
    var list := ItemList(items);
    var rs := Outcomes(list, postType, mapping, acf, host);
    ImportReport(ImportedCount(rs), SkippedCount(rs), Messages(rs), fileName, |list|)
  }

  lemma {:induction false} CountsAddUp(rs: seq<ItemResult>)
    ensures ImportedCount(rs) + SkippedCount(rs) == |rs|
  {
    if rs != [] {
      CountsAddUp(rs[..|rs| - 1]);
    }
  }

  /** The number of skip reasons among diagnostics. */
  function SkipReasons(ds: seq<Diagnostic>): nat
  {
    if ds == [] then 0 else SkipReasons(ds[..|ds| - 1]) + if ds[|ds| - 1].IsSkipReason() then 1 else 0
  }

  lemma {:induction false} SkipReasonsAppend(a: seq<Diagnostic>, b: seq<Diagnostic>)
    ensures SkipReasons(a + b) == SkipReasons(a) + SkipReasons(b)
  {
    if b == [] {
      assert a + b == a;
    } else {
      SkipReasonsAppend(a, b[..|b| - 1]);
      assert (a + b)[..|a + b| - 1] == a + b[..|b| - 1];
      assert (a + b)[|a + b| - 1] == b[|b| - 1];
    }
  }

  lemma {:induction false} NoSkipReasons(ds: seq<Diagnostic>, index: nat)
    requires ItemNotices(ds, index)
    ensures SkipReasons(ds) == 0
  {
    if ds != [] {
      assert ItemNotices(ds[..|ds| - 1], index) by {
        forall d | d in ds[..|ds| - 1] ensures d in ds { }
      }
      NoSkipReasons(ds[..|ds| - 1], index);
    }
  }

  /** Messages listed by item: all those before position `n`, in nondecreasing item order. */
  predicate InItemOrder(ds: seq<Diagnostic>, n: nat)
  {
    && (forall p :: 0 <= p < |ds| ==> ds[p].index < n)
    && (forall p, q :: 0 <= p < q < |ds| ==> ds[p].index <= ds[q].index)
  }

  lemma InItemOrderAppend(a: seq<Diagnostic>, b: seq<Diagnostic>, n: nat)
    requires InItemOrder(a, n)
    requires forall d :: d in b ==> d.index == n
    ensures InItemOrder(a + b, n + 1)
  {
    forall p, q | 0 <= p < q < |a + b|
      ensures (a + b)[p].index <= (a + b)[q].index
    {
      if q >= |a| {
        assert (a + b)[q] in b;
        if p >= |a| {
          assert (a + b)[p] in b;
        }
      }
    }
    forall p | 0 <= p < |a + b|
      ensures (a + b)[p].index < n + 1
    {
      if p >= |a| {
        assert (a + b)[p] in b;
      }
    }
  }

  /** Results whose messages name their own positions. */
  predicate AllWellReported(rs: seq<ItemResult>)
  {
    forall i :: 0 <= i < |rs| ==> WellReported(rs[i], i)
  }

  lemma AllWellReportedInit(rs: seq<ItemResult>)
    requires rs != [] && AllWellReported(rs)
    ensures AllWellReported(rs[..|rs| - 1]) && WellReported(rs[|rs| - 1], |rs| - 1)
  {
    var init := rs[..|rs| - 1];
    forall i | 0 <= i < |init| ensures WellReported(init[i], i) {
      assert init[i] == rs[i];
    }
  }

  /** A well-reported item contributes one skip reason if skipped, none if imported. */
  lemma ResultSkipReasons(r: ItemResult, index: nat)
    requires WellReported(r, index)
    ensures SkipReasons(ResultMessages(r)) == if r.Skipped? then 1 else 0
  {
    match r
    case Skipped(d) =>
      assert [d][..0] == [];
    case Imported(_, ws) =>
      NoSkipReasons(ws, index);
  }

  /** The messages of the report come item by item, in item order. */
  lemma {:induction false} MessagesInOrder(rs: seq<ItemResult>)
    requires AllWellReported(rs)
    ensures InItemOrder(Messages(rs), |rs|)
  {
    if rs != [] {
      AllWellReportedInit(rs);
      MessagesInOrder(rs[..|rs| - 1]);
      InItemOrderAppend(Messages(rs[..|rs| - 1]), ResultMessages(rs[|rs| - 1]), |rs| - 1);
    }
  }

  /** The skip reasons among the messages are exactly one per skipped item. */
  lemma {:induction false} MessagesSkipCount(rs: seq<ItemResult>)
    requires AllWellReported(rs)
    ensures SkipReasons(Messages(rs)) == SkippedCount(rs)
  {
    if rs != [] {
      AllWellReportedInit(rs);
      MessagesSkipCount(rs[..|rs| - 1]);
      SkipReasonsAppend(Messages(rs[..|rs| - 1]), ResultMessages(rs[|rs| - 1]));
      ResultSkipReasons(rs[|rs| - 1], |rs| - 1);
    }
  }

  lemma OutcomesWellReported(items: seq<Value>, postType: string, mapping: Value, acf: Acf, host: Host)
    ensures AllWellReported(Outcomes(items, postType, mapping, acf, host))
  {
    var rs := Outcomes(items, postType, mapping, acf, host);
    forall i | 0 <= i < |rs| ensures WellReported(rs[i], i) {
      OutcomesAt(items, postType, mapping, acf, host, i);
      ItemAtReported(items[i], i, postType, mapping, acf, host);
    }
  }

  /**
   * The report's books balance: imported plus skipped is the number of
   * records, every skipped record left exactly one skip reason, and the
   * messages come in record order.
   */
  lemma ReportBalances(items: Value, postType: string, mapping: Value, fileName: Value, acf: Acf, host: Host)
    ensures var report := ItemsReport(items, postType, mapping, fileName, acf, host);
      && report.importedCount + report.skippedCount == report.totalItems
      && SkipReasons(report.errorMessages) == report.skippedCount
      && InItemOrder(report.errorMessages, report.totalItems)
  {
    var rs := Outcomes(ItemList(items), postType, mapping, acf, host);
    CountsAddUp(rs);
    OutcomesWellReported(ItemList(items), postType, mapping, acf, host);
    MessagesInOrder(rs);
    MessagesSkipCount(rs);
  }

  lemma TallyStep(rs: seq<ItemResult>, r: ItemResult)
    ensures ImportedCount(rs + [r]) == ImportedCount(rs) + if r.Imported? then 1 else 0
    ensures SkippedCount(rs + [r]) == SkippedCount(rs) + if r.Skipped? then 1 else 0
    ensures Messages(rs + [r]) == Messages(rs) + ResultMessages(r)
  {
    assert (rs + [r])[..|rs|] == rs;
  }

  lemma OutcomesStep(items: seq<Value>, i: nat, postType: string, mapping: Value, acf: Acf, host: Host)
    requires i < |items|
    ensures Outcomes(items[..i + 1], postType, mapping, acf, host)
         == Outcomes(items[..i], postType, mapping, acf, host) + [ItemAt(items[i], i, postType, mapping, acf, host).result]
  {
    assert items[..i + 1][..i] == items[..i];
  }

  /** One pass of the item loop. */
  method ProcessItem(item: Value, index: nat, postType: string, mapping: Value, acf: Acf, host: Host)
    returns (result: ItemResult)
    ensures result == ItemAt(item, index, postType, mapping, acf, host).result
  {
    if !item.Arr? {
      return Skipped(InvalidFormat(index));
    }
    var request;
    result, request := ProcessSingleItem(item, index, postType, mapping, acf, host);
  }

  /** The counters and the message list after one more item. */
  method Tally(result: ItemResult, importedCount: nat, skippedCount: nat, errorMessages: seq<Diagnostic>,
               ghost results: seq<ItemResult>)
    returns (importedCount': nat, skippedCount': nat, errorMessages': seq<Diagnostic>)
    requires importedCount == ImportedCount(results) && skippedCount == SkippedCount(results)
    requires errorMessages == Messages(results)
    ensures importedCount' == ImportedCount(results + [result]) && skippedCount' == SkippedCount(results + [result])
    ensures errorMessages' == Messages(results + [result])
  {
    TallyStep(results, result);
    importedCount', skippedCount', errorMessages' := importedCount, skippedCount, errorMessages;
    if result.Skipped? {
      skippedCount' := skippedCount + 1;
      errorMessages' := errorMessages + [result.reason];
    } else {
      importedCount' := importedCount + 1;
      errorMessages' := errorMessages + result.warnings;
    }
  }

  /** process_items: the counters and the message list over the loop. */
  method ProcessItems(items: Value, postType: string, mapping: Value, fileName: Value, acf: Acf, host: Host)
    returns (report: ImportReport)
    ensures report == ItemsReport(items, postType, mapping, fileName, acf, host)
  {
    var importedCount: nat := 0;
    var skippedCount: nat := 0;
    var errorMessages: seq<Diagnostic> := [];
    var list := ItemList(items);
    var i := 0;
    ghost var results: seq<ItemResult> := [];
    while i < |list|
      invariant 0 <= i <= |list|
      invariant results == Outcomes(list[..i], postType, mapping, acf, host)
      invariant importedCount == ImportedCount(results) && skippedCount == SkippedCount(results)
      invariant errorMessages == Messages(results)
    {
      var result := ProcessItem(list[i], i, postType, mapping, acf, host);
      OutcomesStep(list, i, postType, mapping, acf, host);
      importedCount, skippedCount, errorMessages := Tally(result, importedCount, skippedCount, errorMessages, results);
      results := results + [result];
      i := i + 1;
    }
    assert list[..i] == list;
    report := ImportReport(importedCount, skippedCount, errorMessages, fileName, |list|);
  }

  // ---------------------------------------------------------------------
  // process_import, validate_import_data

  /** The errors process_import returns before any item is processed. */
  datatype ImportError = ImportSecurityCheckFailed | MissingData | ExpiredData | PostTypeMismatch
  {
    function Code(): string
    {
      match this
      case ImportSecurityCheckFailed => "security_check_failed"
      case MissingData => "missing_data"
      case ExpiredData => "expired_data"
      case PostTypeMismatch => "post_type_mismatch"
    }

    function Message(): string
    {
      match this
      case ImportSecurityCheckFailed => "Security check failed."
      case MissingData => "Missing required data (transient key, post type, or mapping info). Please start over."
      case ExpiredData => "Import data expired or was invalid. Please start over."
      case PostTypeMismatch => "Post type mismatch between steps. Please start over."
    }
  }

  datatype ImportResult = Completed(report: ImportReport) | Rejected(error: ImportError)

  const TransientKeyField: Key := StrKey("bulkpostimporter_transient_key")
  const PostTypeField: Key := StrKey("bulkpostimporter_post_type")
  const MappingField: Key := StrKey("mapping")
  const DataKey: Key := StrKey("data")
  const FileNameKey: Key := StrKey("file_name")

  /** The submitted fields the import step cannot do without. */
  const RequiredFields: seq<Key> := [TransientKeyField, PostTypeField, MappingField]

  /** Every required field is set in the submitted form. */
  predicate ImportDataPresent(post: Value)
  {
    Isset(post, TransientKeyField) && Isset(post, PostTypeField) && Isset(post, MappingField)
  }

  /** validate_import_data: the loop over the required fields. */
  method ValidateImportData(post: Value) returns (valid: bool)
    ensures valid <==> ImportDataPresent(post)
  {
    var i := 0;
    while i < |RequiredFields|
      invariant 0 <= i <= |RequiredFields|
      invariant forall j :: 0 <= j < i ==> Isset(post, RequiredFields[j])
    {
      if !Isset(post, RequiredFields[i]) {
        return false;
      }
      i := i + 1;
    }
    assert Isset(post, RequiredFields[0]) && Isset(post, RequiredFields[1]) && Isset(post, RequiredFields[2]);
    return true;
  }

  /** The transient key, through sanitize_text_field. */
  function SubmittedTransientKey(post: Value, host: Host): string
  {
    if Isset(post, TransientKeyField) then host.sanitizeTextField(Get(post, TransientKeyField)) else ""
  }

  /** The post type, through sanitize_key. */
  function SubmittedPostType(post: Value, host: Host): string
  {
    if Isset(post, PostTypeField) then host.sanitizeKey(Get(post, PostTypeField)) else ""
  }

  /** The mapping, sanitized when it is an array, else empty. */
  function SubmittedMapping(post: Value, host: Host): (mapping: Value)
    ensures mapping.Arr? && DistinctKeys(mapping.entries)
    ensures !(Isset(post, MappingField) && Get(post, MappingField).Arr?) ==> mapping == Arr([])
  {
    if Isset(post, MappingField) && Get(post, MappingField).Arr? then Utils.SanitizeMapping(Get(post, MappingField), host)
    else Arr([])
  }

  /** A transient the import can use: an array with 'data' and 'post_type' set. */
  predicate UsableStaged(stored: Option<Value>)
  {
    stored.Some? && stored.value.Arr? && Isset(stored.value, DataKey) && Isset(stored.value, PostTypeKey)
  }

  /** `$transient_data['file_name'] ?? 'unknown file'` */
  function StagedFileName(staged: Value): Value
  {
    if Isset(staged, FileNameKey) then Get(staged, FileNameKey) else Str("unknown file")
  }

  /**
   * What process_import returns, for a store holding `entries`: the nonce,
   * the required fields, a usable transient, the same post type, then the
   * report over the staged records.
   */
  function ImportOutcome(nonceValid: bool, post: Value, acf: Acf, host: Host, entries: map<string, Value>): ImportResult
  {
    if !nonceValid then Rejected(ImportSecurityCheckFailed)
    else if !ImportDataPresent(post) then Rejected(MissingData)
    else
      var stored := Lookup(entries, SubmittedTransientKey(post, host));
      var postType := SubmittedPostType(post, host);
      if !UsableStaged(stored) then Rejected(ExpiredData)
      else if Get(stored.value, PostTypeKey) != Str(postType) then Rejected(PostTypeMismatch)
      else
        Completed(ItemsReport(Get(stored.value, DataKey), postType, SubmittedMapping(post, host),
                              StagedFileName(stored.value), acf, host))
  }

  /** Whether process_import deletes the transient: once it has been found usable. */
  predicate ConsumesTransient(r: ImportResult)
  {
    r.Completed? || r == Rejected(PostTypeMismatch)
  }

  /** process_import */
  method ProcessImport(nonceValid: bool, post: Value, acf: Acf, host: Host, store: TransientStore)
    returns (r: ImportResult)
    modifies store
    ensures r == ImportOutcome(nonceValid, post, acf, host, old(store.entries))
    ensures ConsumesTransient(r) ==> store.entries == old(store.entries) - {SubmittedTransientKey(post, host)}
    ensures !ConsumesTransient(r) ==> store.entries == old(store.entries)
  {
    if !nonceValid {
      return Rejected(ImportSecurityCheckFailed);
    }
    var valid := ValidateImportData(post);
    if !valid {
      return Rejected(MissingData);
    }
    var transientKey := SubmittedTransientKey(post, host);
    var postType := SubmittedPostType(post, host);
    var mapping := Arr([]);
    if Isset(post, MappingField) && Get(post, MappingField).Arr? {
      mapping := Utils.SanitizeMappingArray(Get(post, MappingField), host);
    }
    var transientData := store.Get(transientKey);
    if transientData.None? || !transientData.value.Arr?
       || !Isset(transientData.value, DataKey) || !Isset(transientData.value, PostTypeKey) {
      return Rejected(ExpiredData);
    }
    if Get(transientData.value, PostTypeKey) != Str(postType) {
      store.Delete(transientKey);
      return Rejected(PostTypeMismatch);
    }
    var itemsToImport := Get(transientData.value, DataKey);
    var originalFileName := StagedFileName(transientData.value);
    store.Delete(transientKey);
    var report := ProcessItems(itemsToImport, postType, mapping, originalFileName, acf, host);
    r := Completed(report);
  }

  /** The three fields of a transient the upload step stores. */
  lemma StagedEntryFields(data: Value, postType: string, fileName: string)
    ensures var e := FileHandler.StagedEntry(data, postType, fileName).entries;
      && Find(e, DataKey) == Some(data)
      && Find(e, PostTypeKey) == Some(Str(postType))
      && Find(e, FileNameKey) == Some(Str(fileName))
  {
    var e := FileHandler.StagedEntry(data, postType, fileName).entries;
    assert "post_type"[0] != "file_name"[0];
    FindAt(e, 0);
    FindAt(e, 1);
    FindAt(e, 2);
  }

  /**
   * The checks of process_import in order: the nonce, the three form
   * fields, a usable transient, the post type it was staged for.
   */
  lemma ImportCheckOrder(nonceValid: bool, post: Value, acf: Acf, host: Host, entries: map<string, Value>)
    ensures var r := ImportOutcome(nonceValid, post, acf, host, entries);
      var key := SubmittedTransientKey(post, host);
      && (r == Rejected(ImportSecurityCheckFailed) <==> !nonceValid)
      && (r == Rejected(MissingData) <==> nonceValid && !ImportDataPresent(post))
      && (r == Rejected(ExpiredData) <==>
            nonceValid && ImportDataPresent(post) && !UsableStaged(Lookup(entries, key)))
      && (r == Rejected(ExpiredData) && key in entries ==>
            !entries[key].Arr? || !Isset(entries[key], DataKey) || !Isset(entries[key], PostTypeKey))
      && (r.Completed? <==>
            nonceValid && ImportDataPresent(post) && UsableStaged(Lookup(entries, key))
            && Get(entries[key], PostTypeKey) == Str(SubmittedPostType(post, host)))
  {
  }

  /**
   * A staged import runs at most once: after a completed import (or a post
   * type mismatch) the same form finds its transient gone.
   */
  lemma ImportRunsOnce(nonceValid: bool, post: Value, acf: Acf, host: Host, entries: map<string, Value>)
    requires ConsumesTransient(ImportOutcome(nonceValid, post, acf, host, entries))
    ensures ImportOutcome(nonceValid, post, acf, host, entries - {SubmittedTransientKey(post, host)}) == Rejected(ExpiredData)
  {
  }

  /**
   * What the upload step stages is what the import step processes: with the
   * transient key and post type of the upload, the import reports over the
   * staged data under the uploaded file's name.
   */
  lemma UploadThenImport(post: Value, acf: Acf, host: Host, entries: map<string, Value>,
                         data: Value, postType: string, fileName: string)
    requires ImportDataPresent(post)
    requires SubmittedPostType(post, host) == postType
    requires data != Null
    ensures var staged := entries[SubmittedTransientKey(post, host) := FileHandler.StagedEntry(data, postType, fileName)];
      ImportOutcome(true, post, acf, host, staged)
        == Completed(ItemsReport(data, postType, SubmittedMapping(post, host), Str(fileName), acf, host))
  {
    var entry := FileHandler.StagedEntry(data, postType, fileName);
    var staged := entries[SubmittedTransientKey(post, host) := entry];
    StagedEntryFields(data, postType, fileName);
    assert Lookup(staged, SubmittedTransientKey(post, host)) == Some(entry);
    assert UsableStaged(Some(entry));
    assert StagedFileName(entry) == Str(fileName);
  }

  /** A form sent with another post type than the upload's is turned away and loses its transient. */
  lemma OtherPostTypeRejected(post: Value, acf: Acf, host: Host, entries: map<string, Value>,
                              data: Value, postType: string, fileName: string)
    requires ImportDataPresent(post)
    requires SubmittedPostType(post, host) != postType
    requires data != Null
    ensures var staged := entries[SubmittedTransientKey(post, host) := FileHandler.StagedEntry(data, postType, fileName)];
      ImportOutcome(true, post, acf, host, staged) == Rejected(PostTypeMismatch)
  {
    StagedEntryFields(data, postType, fileName);
  }
}
