/**
 * The Advanced Custom Fields bridge (BULKPOSTIMPORTER_ACF_Handler): which
 * ACF field types the importer may write to, the discovery of the fields
 * attached to a post type, and the guarded calls into ACF.
 */
module AcfHandler {
  import opened PhpValue

  /**
   * What the ACF plugin offers at run time: whether its class is loaded, which
   * of its functions exist, and the functions themselves.
   */
  datatype Acf = Acf(
    /** class_exists('ACF') */
    active: bool,
    /** function_exists('acf_get_field_groups') && function_exists('acf_get_fields') */
    hasGroupFunctions: bool,
    /** function_exists('update_field') */
    hasUpdateField: bool,
    /** function_exists('get_field_object') */
    hasGetFieldObject: bool,
    /** acf_get_field_groups(array('post_type' => $post_type)) */
    fieldGroups: string -> Value,
    /** acf_get_fields($group_key) */
    fieldsOf: Value -> Value,
    /** get_field_object($field_key, $post_id, false): a field array or false */
    fieldObject: (Value, int) -> Value,
    /** update_field($field_key, $value, $post_id) */
    updateField: (Value, Value, int) -> bool
  )

  const KeyKey: Key := StrKey("key")
  const TypeKey: Key := StrKey("type")
  const IsMappableKey: Key := StrKey("is_mappable")

  /** is_active */
  predicate IsActive(acf: Acf)
  {
    acf.active
  }

  /** The field types a plain text or number from the import file can fill. */
  const MappableTypes: set<string> := {"text", "textarea", "number", "email", "url", "password", "phone_number"}

  /**
   * is_field_mappable: the field has a 'type' that is, as a string and
   * compared strictly, one of the allowed types.
   */
  predicate IsFieldMappable(field: Value)
  {
    Isset(field, TypeKey) && var t := Get(field, TypeKey); t.Str? && t.s in MappableTypes
  }

  /** Mappable exactly when 'type' is present and holds an allowed type name. */
  lemma IsFieldMappableIff(field: Value)
    ensures IsFieldMappable(field) <==>
      field.Arr? && exists t :: t in MappableTypes && Find(field.entries, TypeKey) == Some(Str(t))
  {
    if field.Arr? && Find(field.entries, TypeKey).Some? {
      var t := Find(field.entries, TypeKey).value;
      if t.Str? && t.s in MappableTypes {
        assert Find(field.entries, TypeKey) == Some(Str(t.s));
      }
    }
  }

  /** A field without a 'type' entry is never mappable. */
  lemma NoTypeNotMappable(field: Value)
    requires !field.Arr? || Find(field.entries, TypeKey).None?
    ensures !IsFieldMappable(field)
  {
  }

  /** get_allowed_field_types: each allowed type with its label. */
  function AllowedFieldTypes(): (types: Value)
    ensures types.Arr? && DistinctKeys(types.entries)
    ensures forall t :: t in MappableTypes <==> StrKey(t) in KeysOf(types.entries)
  {
    var r := Arr([
      Entry(StrKey("text"), Str("Text")),
      Entry(StrKey("textarea"), Str("Textarea")),
      Entry(StrKey("number"), Str("Number")),
      Entry(StrKey("email"), Str("Email")),
      Entry(StrKey("url"), Str("URL")),
      Entry(StrKey("password"), Str("Password")),
      Entry(StrKey("phone_number"), Str("Phone Number"))
    ]);
    assert KeysOf(r.entries) == [StrKey("text"), StrKey("textarea"), StrKey("number"), StrKey("email"),
                                 StrKey("url"), StrKey("password"), StrKey("phone_number")];
    r
  }

  /** The allowlist of is_field_mappable and the keys of get_allowed_field_types agree. */
  lemma MappableIffAllowedKey(field: Value)
    ensures IsFieldMappable(field) <==>
      Isset(field, TypeKey) && Get(field, TypeKey).Str?
        && StrKey(Get(field, TypeKey).s) in KeysOf(AllowedFieldTypes().entries)
  {
  }

  // ---------------------------------------------------------------------
  // get_fields_for_post_type

  /** The field as stored: the same array with 'is_mappable' set. */
  function MarkMappable(field: Value): (marked: Value)
    requires field.Arr?
    ensures marked.Arr?
    ensures Find(marked.entries, IsMappableKey) == Some(Bool(IsFieldMappable(field)))
    ensures forall k :: k != IsMappableKey ==> Find(marked.entries, k) == Find(field.entries, k)
  {
    Arr(Put(field.entries, IsMappableKey, Bool(IsFieldMappable(field))))
  }

  /** `$acf_fields[$field['key']] = $field` for one field, or nothing when it has no key. */
  function FieldAssignment(field: Value): seq<Entry>
  {
    if Isset(field, KeyKey) && AsKey(Get(field, KeyKey)).Some? then
      [Entry(AsKey(Get(field, KeyKey)).value, MarkMappable(field))]
    else []
  }

  /** The assignments for the fields of one group, in order. */
  function FieldAssignments(fields: seq<Value>): seq<Entry>
  {
    if fields == [] then []
    else FieldAssignments(fields[..|fields| - 1]) + FieldAssignment(fields[|fields| - 1])
  }

  /** The fields of a group that has a key and a non-empty field list. */
  function GroupFields(acf: Acf, group: Value): seq<Value>
  {
    if !Isset(group, KeyKey) then []
    else
      var fs := acf.fieldsOf(Get(group, KeyKey));
      if IsEmpty(fs) || !fs.Arr? then [] else ValuesOf(fs.entries)
  }

  /** The assignments for all groups, group after group. */
  function GroupAssignments(acf: Acf, groups: seq<Value>): seq<Entry>
  {
    if groups == [] then []
    else GroupAssignments(acf, groups[..|groups| - 1]) + FieldAssignments(GroupFields(acf, groups[|groups| - 1]))
  }

  /** The field groups of a post type, or none when ACF cannot be asked. */
  function GroupsOf(acf: Acf, postType: string): seq<Value>
  {
    if !acf.active || !acf.hasGroupFunctions then []
    else
      var gs := acf.fieldGroups(postType);
      if IsEmpty(gs) || !gs.Arr? then [] else ValuesOf(gs.entries)
  }

  /**
   * What get_fields_for_post_type returns: every field with a key, across
   * all groups, stored under its key with 'is_mappable' set; nothing when
   * ACF is inactive, its functions are missing, or there are no groups.
   */
  function FieldsForPostType(acf: Acf, postType: string): (fields: seq<Entry>)
    ensures DistinctKeys(fields)
    ensures !acf.active || !acf.hasGroupFunctions ==> fields == []
    ensures IsEmpty(acf.fieldGroups(postType)) ==> fields == []
  {
    PutAll(GroupAssignments(acf, GroupsOf(acf, postType)))
  }

  method GetFieldsForPostType(acf: Acf, postType: string) returns (fields: Value)
    ensures fields == Arr(FieldsForPostType(acf, postType))
  {
    if !IsActive(acf) {
      return Arr([]);
    }
    if !acf.hasGroupFunctions {
      return Arr([]);
    }
    var acfFields: seq<Entry> := [];
    var fieldGroups := acf.fieldGroups(postType);
    if IsEmpty(fieldGroups) || !fieldGroups.Arr? {
      return Arr([]);
    }
    var groups := ValuesOf(fieldGroups.entries);
    assert groups == GroupsOf(acf, postType);
    var i := 0;
    while i < |groups|
      invariant 0 <= i <= |groups|
      invariant acfFields == PutAll(GroupAssignments(acf, groups[..i]))
    {
      GroupAssignmentsStep(acf, groups, i);
      acfFields := AddGroup(acf, acfFields, GroupAssignments(acf, groups[..i]), groups[i]);
      i := i + 1;
    }
    assert groups[..i] == groups;
    fields := Arr(acfFields);
  }

  /** The body of the loop over groups: the fields of one group added to `acfFields`. */
  method AddGroup(acf: Acf, acfFields: seq<Entry>, ghost before: seq<Entry>, group: Value) returns (next: seq<Entry>)
    requires acfFields == PutAll(before)
    ensures next == PutAll(before + FieldAssignments(GroupFields(acf, group)))
  {
    if Isset(group, KeyKey) {
      var fieldsInGroup := acf.fieldsOf(Get(group, KeyKey));
      if !IsEmpty(fieldsInGroup) && fieldsInGroup.Arr? {
        next := AddFields(acfFields, before, ValuesOf(fieldsInGroup.entries));
        return;
      }
    }
    assert before + [] == before;
    next := acfFields;
  }

  /** The loop over the fields of one group. */
  method AddFields(acfFields: seq<Entry>, ghost before: seq<Entry>, fs: seq<Value>) returns (next: seq<Entry>)
    requires acfFields == PutAll(before)
    ensures next == PutAll(before + FieldAssignments(fs))
  {
    next := acfFields;
    ghost var done := before;
    var j := 0;
    while j < |fs|
      invariant 0 <= j <= |fs|
      invariant done == before + FieldAssignments(fs[..j])
      invariant next == PutAll(done)
    {
      next := AddField(next, done, fs[j]);
      FieldAssignmentsStep(before, fs, j);
      done := done + FieldAssignment(fs[j]);
      j := j + 1;
    }
    assert fs[..j] == fs;
  }

  /** The body of the loop over the fields of a group. */
  method AddField(acfFields: seq<Entry>, ghost before: seq<Entry>, field: Value) returns (next: seq<Entry>)
    requires acfFields == PutAll(before)
    ensures next == PutAll(before + FieldAssignment(field))
  {
    next := acfFields;
    if Isset(field, KeyKey) {
      var key := AsKey(Get(field, KeyKey));
      if key.Some? {
        var marked := Arr(Put(field.entries, IsMappableKey, Bool(IsFieldMappable(field))));
        PutAllSnoc(before, Entry(key.value, marked));
        next := Put(acfFields, key.value, marked);
        return;
      }
    }
    assert before + [] == before;
  }

  /** One more field extends the assignments made so far by its own. */
  lemma FieldAssignmentsStep(before: seq<Entry>, fs: seq<Value>, j: nat)
    requires j < |fs|
    ensures before + FieldAssignments(fs[..j + 1]) == before + FieldAssignments(fs[..j]) + FieldAssignment(fs[j])
  {
    assert fs[..j + 1][..j] == fs[..j];
    assert FieldAssignments(fs[..j + 1]) == FieldAssignments(fs[..j]) + FieldAssignment(fs[j]);
  }

  lemma GroupAssignmentsStep(acf: Acf, gs: seq<Value>, i: nat)
    requires i < |gs|
    ensures GroupAssignments(acf, gs[..i + 1])
         == GroupAssignments(acf, gs[..i]) + FieldAssignments(GroupFields(acf, gs[i]))
  {
    assert gs[..i + 1][..i] == gs[..i];
  }

  /**
   * What every stored entry looks like: a field array whose own 'key' is
   * the key it is stored under, and whose 'is_mappable' flag is
   * is_field_mappable of the field.
   */
  predicate StoredField(e: Entry)
  {
    && e.val.Arr?
    && Isset(e.val, KeyKey) && AsKey(Get(e.val, KeyKey)) == Some(e.key)
    && Find(e.val.entries, IsMappableKey) == Some(Bool(IsFieldMappable(e.val)))
  }

  lemma FieldAssignmentStored(field: Value)
    ensures forall e :: e in FieldAssignment(field) ==> StoredField(e)
  {
    if Isset(field, KeyKey) && AsKey(Get(field, KeyKey)).Some? {
      var m := MarkMappable(field);
      assert Find(m.entries, TypeKey) == Find(field.entries, TypeKey);
      assert Find(m.entries, KeyKey) == Find(field.entries, KeyKey);
      assert IsFieldMappable(m) == IsFieldMappable(field);
    }
  }

  lemma {:induction false} FieldAssignmentsStored(fields: seq<Value>)
    ensures forall e :: e in FieldAssignments(fields) ==> StoredField(e)
  {
    if fields != [] {
      FieldAssignmentsStored(fields[..|fields| - 1]);
      FieldAssignmentStored(fields[|fields| - 1]);
    }
  }

  lemma {:induction false} GroupAssignmentsStored(acf: Acf, groups: seq<Value>)
    ensures forall e :: e in GroupAssignments(acf, groups) ==> StoredField(e)
  {
    if groups != [] {
      GroupAssignmentsStored(acf, groups[..|groups| - 1]);
      FieldAssignmentsStored(GroupFields(acf, groups[|groups| - 1]));
    }
  }

  /**
   * Every field get_fields_for_post_type returns is keyed by its own 'key'
   * and carries 'is_mappable' equal to is_field_mappable of the field.
   */
  lemma FieldsForPostTypeStored(acf: Acf, postType: string)
    ensures forall e :: e in FieldsForPostType(acf, postType) ==> StoredField(e)
  {
    var assignments := GroupAssignments(acf, GroupsOf(acf, postType));
    GroupAssignmentsStored(acf, GroupsOf(acf, postType));
    PutAllMembers(assignments);
  }

  /**
   * Under each key sits the last field, in group order, that has that key: a
   * later field with the same key overwrites an earlier one.
   */
  lemma FieldsForPostTypeLastWins(acf: Acf, postType: string, k: Key)
    ensures var assignments := GroupAssignments(acf, GroupsOf(acf, postType));
      var i := LastKeyIndex(assignments, k);
      Find(FieldsForPostType(acf, postType), k) == if i < 0 then None else Some(assignments[i].val)
  {
    PutAllFind(GroupAssignments(acf, GroupsOf(acf, postType)), k);
  }

  // ---------------------------------------------------------------------
  // Guarded calls

  /** update_field: false unless ACF is active and provides update_field. */
  function UpdateField(acf: Acf, fieldKey: Value, value: Value, postId: int): (ok: bool)
    ensures !acf.active || !acf.hasUpdateField ==> !ok
    ensures acf.active && acf.hasUpdateField ==> ok == acf.updateField(fieldKey, value, postId)
  {
    if !IsActive(acf) || !acf.hasUpdateField then false else acf.updateField(fieldKey, value, postId)
  }

  /** get_field_object: false unless ACF is active and provides get_field_object. */
  function GetFieldObject(acf: Acf, fieldKey: Value, postId: int): (field: Value)
    ensures !acf.active || !acf.hasGetFieldObject ==> field == Bool(false)
    ensures acf.active && acf.hasGetFieldObject ==> field == acf.fieldObject(fieldKey, postId)
  {
    if !IsActive(acf) || !acf.hasGetFieldObject then Bool(false) else acf.fieldObject(fieldKey, postId)
  }
}
