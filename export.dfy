/**
 * The two exporters of the consolidated table
 * (scripts/parse_ms_ada_pdfs.py): `export_to_enhanced_json`, which writes
 * one entry per record under the enhanced schema's property names with the
 * flag and number fields converted, and `export_to_json`, which writes the
 * non-`None` fields of each record under their attribute names.  Only the
 * in-memory maps are modelled; their JSON text is not.
 */
module Export {
  import opened Common
  import opened Text
  import opened Fields
  import opened Parser

  // ---------------------------------------------------------------------
  // Enhanced export

  /**
   * The fields of the enhanced export's field mapping, in its order: every
   * field except the display name, which every entry starts with, and the
   * schema GUID, which is the entry's key and is never written as a field.
   * Each is written under the same name its rule looks for.
   */
  const MappedFields: seq<Field> :=
    [Cn, AttributeId, AttributeSyntax, OmSyntax, IsSingleValued, SystemOnly,
     SearchFlags, RangeLower, RangeUpper, AttributeSecurityGuid, MapiId,
     IsMemberOfPartialAttributeSet, SystemFlags, SchemaFlagsEx]

  predicate Mapped(f: Field) {
    f != LdapDisplayName && f != SchemaIdGuid
  }

  /** The mapping lists exactly the mapped fields, each once. */
  lemma MappedFieldsExact()
    ensures forall f: Field :: f in MappedFields <==> Mapped(f)
    ensures forall i, j :: 0 <= i < j < |MappedFields| ==> MappedFields[i] != MappedFields[j]
  {
    forall f: Field | Mapped(f) ensures f in MappedFields {
      var i: int :=
        match f
        case Cn => 0 case AttributeId => 1 case AttributeSyntax => 2 case OmSyntax => 3
        case IsSingleValued => 4 case SystemOnly => 5 case SearchFlags => 6 case RangeLower => 7
        case RangeUpper => 8 case AttributeSecurityGuid => 9 case MapiId => 10
        case IsMemberOfPartialAttributeSet => 11 case SystemFlags => 12 case SchemaFlagsEx => 13
        case _ => 0;
      assert MappedFields[i] == f;
    }
  }

  /** The field a property name belongs to, if any: the inverse of `Label`, by first letter. */
  function FieldOfLabel(k: string): (f: Option<Field>)
    ensures f.Some? ==> Label(f.value) == k
  {
    if k == [] then None
    else if k[0] == 'c' then
      if k == "cn" then Some(Cn)
      else None
    else if k[0] == 'l' then
      if k == "ldapDisplayName" then Some(LdapDisplayName)
      else None
    else if k[0] == 'a' then
      if k == "attributeId" then Some(AttributeId)
      else if k == "attributeSyntax" then Some(AttributeSyntax)
      else if k == "attributeSecurityGuid" then Some(AttributeSecurityGuid)
      else None
    else if k[0] == 'o' then
      if k == "omSyntax" then Some(OmSyntax)
      else None
    else if k[0] == 's' then
      if k == "schemaIdGuid" then Some(SchemaIdGuid)
      else if k == "systemOnly" then Some(SystemOnly)
      else if k == "searchFlags" then Some(SearchFlags)
      else if k == "systemFlags" then Some(SystemFlags)
      else if k == "schemaFlagsEx" then Some(SchemaFlagsEx)
      else None
    else if k[0] == 'i' then
      if k == "isSingleValued" then Some(IsSingleValued)
      else if k == "isMemberOfPartialAttributeSet" then Some(IsMemberOfPartialAttributeSet)
      else None
    else if k[0] == 'r' then
      if k == "rangeLower" then Some(RangeLower)
      else if k == "rangeUpper" then Some(RangeUpper)
      else None
    else if k[0] == 'm' then
      if k == "mapiID" then Some(MapiId)
      else None
    else None
  }

  /** Different fields have different names. */
  lemma LabelInjective(f: Field, g: Field)
    ensures Label(f) == Label(g) ==> f == g
  {
    LabelInverse(f);
    LabelInverse(g);
  }

  lemma LabelInverse(f: Field)
    ensures FieldOfLabel(Label(f)) == Some(f)
  {
    match f
    case Cn =>
    case LdapDisplayName =>
    case AttributeId =>
    case AttributeSyntax =>
    case OmSyntax =>
    case SchemaIdGuid =>
    case IsSingleValued =>
    case SystemOnly =>
    case SearchFlags =>
    case RangeLower =>
    case RangeUpper =>
    case AttributeSecurityGuid =>
    case MapiId =>
    case IsMemberOfPartialAttributeSet =>
    case SystemFlags =>
    case SchemaFlagsEx =>
  }

  /** The fields whose `"TRUE"`/`"FALSE"` values become JSON booleans. */
  predicate IsBoolField(f: Field) {
    f == IsSingleValued || f == SystemOnly || f == IsMemberOfPartialAttributeSet
  }

  /** The fields whose values become JSON integers when `int()` accepts them. */
  predicate IsIntField(f: Field) {
    f == OmSyntax || f == RangeLower || f == RangeUpper || f == MapiId
  }

  /** The JSON value written for the value `v` of field `f`. */
  function Coerce(f: Field, v: string): (j: Json)
    ensures j.JBool? <==> IsBoolField(f) && (v == "TRUE" || v == "FALSE")
    ensures j.JBool? ==> j.b == (v == "TRUE")
    ensures j.JInt? <==> IsIntField(f) && ParseInt(v).Some?
    ensures j.JInt? ==> ParseInt(v) == Some(j.i)
    ensures j.JString? ==> j.s == v
    ensures !j.JNull?
  {
    if IsBoolField(f) then
      if v == "TRUE" then JBool(true) else if v == "FALSE" then JBool(false) else JString(v)
    else if IsIntField(f) then
      match ParseInt(v)
      case Some(n) => JInt(n)
      case None => JString(v)
    else JString(v)
  }

  /** A JSON value of the kind `Coerce` writes for field `f`. */
  predicate WellTyped(f: Field, j: Json) {
    match j
    case JNull => false
    case JBool(_) => IsBoolField(f)
    case JInt(i) => IsIntField(f) && |ShowNat(Abs(i))| <= MaxStrDigits
    case JString(s) =>
      && (IsBoolField(f) ==> s != "TRUE" && s != "FALSE")
      && (IsIntField(f) ==> ParseInt(s).None?)
  }

  /** A string that `Coerce` turns back into `j`. */
  function Uncoerce(j: Json): string {
    match j
    case JNull => ""
    case JBool(b) => if b then "TRUE" else "FALSE"
    case JInt(n) => ShowInt(n)
    case JString(s) => s
  }

  /** Every value `Coerce` writes is well typed, and every well-typed value is written for some string. */
  lemma CoerceRoundTrip(f: Field, v: string, j: Json)
    ensures WellTyped(f, Coerce(f, v))
    ensures WellTyped(f, j) ==> Coerce(f, Uncoerce(j)) == j
  {
    if IsIntField(f) && ParseInt(v).Some? {
      ParseIntBounded(v);
    }
    if WellTyped(f, j) && j.JInt? {
      ParseIntShowInt(j.i);
    }
  }

  /**
   * The entry built from the first fields of the mapping, `fs`: the display
   * name (JSON `null` when it is `None`), then each field of `fs` whose value
   * is neither `None` nor empty, under its name, converted.
   */
  function EntryFrom(a: Attribute, fs: seq<Field>): map<string, Json> {
    if fs == [] then map["ldapDisplayName" := OptionToJson(Get(a, LdapDisplayName))]
    else
      var e := EntryFrom(a, fs[..|fs| - 1]);
      var f := fs[|fs| - 1];
      if Truthy(Get(a, f)) then e[Label(f) := Coerce(f, a.fields[f])] else e
  }

  /** The enhanced entry of a record. */
  function EnhancedEntry(a: Attribute): map<string, Json> {
    EntryFrom(a, MappedFields)
  }

  /** The display name is in every entry built from mapped fields, unchanged. */
  lemma {:induction false} EntryFromName(a: Attribute, fs: seq<Field>)
    requires forall i :: 0 <= i < |fs| ==> Mapped(fs[i])
    ensures var e := EntryFrom(a, fs);
      "ldapDisplayName" in e && e["ldapDisplayName"] == OptionToJson(Get(a, LdapDisplayName))
  {
    if fs != [] {
      var init, f := fs[..|fs| - 1], fs[|fs| - 1];
      assert forall i :: 0 <= i < |init| ==> init[i] == fs[i];
      EntryFromName(a, init);
      LabelInjective(f, LdapDisplayName);
    }
  }

  /** A mapped field is in an entry built from `fs` exactly when it is in `fs` and set, converted. */
  lemma {:induction false} EntryFromFields(a: Attribute, fs: seq<Field>)
    ensures var e := EntryFrom(a, fs);
      && (forall f: Field :: Mapped(f) ==> (Label(f) in e <==> f in fs && Truthy(Get(a, f))))
      && (forall f: Field :: Mapped(f) && Label(f) in e ==> e[Label(f)] == Coerce(f, a.fields[f]))
  {
    if fs == [] {
      forall f: Field | Mapped(f) ensures Label(f) != "ldapDisplayName" {
        LabelInjective(f, LdapDisplayName);
      }
    } else {
      var init, f := fs[..|fs| - 1], fs[|fs| - 1];
      EntryFromFields(a, init);
      forall g: Field | Mapped(g) ensures g in fs <==> g in init || g == f {
        assert fs == init + [f];
      }
      forall g: Field | Mapped(g) ensures Label(g) == Label(f) ==> g == f {
        LabelInjective(g, f);
      }
    }
  }

  /** An entry built from mapped fields has no property besides the display name and mapped fields. */
  lemma {:induction false} EntryFromKeys(a: Attribute, fs: seq<Field>)
    requires forall i :: 0 <= i < |fs| ==> Mapped(fs[i])
    ensures forall k :: k in EntryFrom(a, fs) ==>
      k == "ldapDisplayName" || (FieldOfLabel(k).Some? && Mapped(FieldOfLabel(k).value))
  {
    if fs != [] {
      var init, f := fs[..|fs| - 1], fs[|fs| - 1];
      assert forall i :: 0 <= i < |init| ==> init[i] == fs[i];
      EntryFromKeys(a, init);
      LabelInverse(f);
    }
  }

  /**
   * The enhanced entry of a record: the display name is always present
   * (`null` when unset) and no property is named after the schema GUID;
   * every other field is present exactly when its value is neither `None`
   * nor empty, converted by `Coerce`; and there are no other properties.
   */
  lemma EnhancedEntryShape(a: Attribute)
    ensures var e := EnhancedEntry(a);
      && "ldapDisplayName" in e && e["ldapDisplayName"] == OptionToJson(Get(a, LdapDisplayName))
      && "schemaIdGuid" !in e
      && (forall f: Field :: Mapped(f) ==> (Label(f) in e <==> Truthy(Get(a, f))))
      && (forall f: Field :: Mapped(f) && Label(f) in e ==> e[Label(f)] == Coerce(f, a.fields[f]))
      && (forall k :: k in e ==> k == "ldapDisplayName" || (FieldOfLabel(k).Some? && Mapped(FieldOfLabel(k).value)))
  {
    MappedFieldsExact();
    EntryFromName(a, MappedFields);
    EntryFromFields(a, MappedFields);
    EntryFromKeys(a, MappedFields);
    assert FieldOfLabel("schemaIdGuid") == Some(SchemaIdGuid);
  }

  /** One field of the mapping: the body of the inner loop of `export_to_enhanced_json`. */
  method AddField(entry: map<string, Json>, f: Field, value: Option<string>) returns (e: map<string, Json>)
    ensures value.Some? && value.value != "" ==> e == entry[Label(f) := Coerce(f, value.value)]
    ensures !(value.Some? && value.value != "") ==> e == entry
  {
    e := entry;
    if value.Some? && value.value != "" {
      e := e[Label(f) := Coerce(f, value.value)];
    }
  }

  /** The inner loop of `export_to_enhanced_json`, over the fields `fs` of the mapping. */
  method BuildEntry(a: Attribute, fs: seq<Field>) returns (e: map<string, Json>)
    ensures e == EntryFrom(a, fs)
  {
    e := map["ldapDisplayName" := OptionToJson(Get(a, LdapDisplayName))];
    var i := 0;
    while i < |fs|
      invariant 0 <= i <= |fs|
      invariant e == EntryFrom(a, fs[..i])
    {
      assert fs[..i + 1][..i] == fs[..i];
      e := AddField(e, fs[i], Get(a, fs[i]));
      i := i + 1;
    }
    assert fs[..i] == fs;
  }

  /** `export_to_enhanced_json`, up to writing the file: one entry per key of the table. */
  method ExportEnhanced(table: map<string, Attribute>) returns (schema: map<string, map<string, Json>>)
    ensures schema.Keys == table.Keys
    ensures forall k :: k in schema ==> schema[k] == EnhancedEntry(table[k])
  {
    schema := map[];
    var rest := table.Keys;
    while rest != {}
      invariant rest <= table.Keys
      invariant schema.Keys == table.Keys - rest
      invariant forall k :: k in schema ==> schema[k] == EnhancedEntry(table[k])
      decreases |rest|
    {
      var k :| k in rest;
      var entry := BuildEntry(table[k], MappedFields);
      schema := schema[k := entry];
      rest := rest - {k};
    }
  }

  // ---------------------------------------------------------------------
  // Raw export

  /** The attribute name of a field in the record (`dataclasses.asdict`). */
  function PyName(f: Field): string {
    match f
    case Cn => "cn"
    case LdapDisplayName => "ldap_display_name"
    case AttributeId => "attribute_id"
    case AttributeSyntax => "attribute_syntax"
    case OmSyntax => "om_syntax"
    case SchemaIdGuid => "schema_id_guid"
    case IsSingleValued => "is_single_valued"
    case SystemOnly => "system_only"
    case SearchFlags => "search_flags"
    case RangeLower => "range_lower"
    case RangeUpper => "range_upper"
    case AttributeSecurityGuid => "attribute_security_guid"
    case MapiId => "mapi_id"
    case IsMemberOfPartialAttributeSet => "is_member_of_partial_attribute_set"
    case SystemFlags => "system_flags"
    case SchemaFlagsEx => "schema_flags_ex"
  }

  /** The field an attribute name belongs to, if any: the inverse of `PyName`, by first letter. */
  function FieldOfPyName(k: string): (f: Option<Field>)
    ensures f.Some? ==> PyName(f.value) == k
  {
    if k == [] then None
    else if k[0] == 'c' then
      if k == "cn" then Some(Cn)
      else None
    else if k[0] == 'l' then
      if k == "ldap_display_name" then Some(LdapDisplayName)
      else None
    else if k[0] == 'a' then
      if k == "attribute_id" then Some(AttributeId)
      else if k == "attribute_syntax" then Some(AttributeSyntax)
      else if k == "attribute_security_guid" then Some(AttributeSecurityGuid)
      else None
    else if k[0] == 'o' then
      if k == "om_syntax" then Some(OmSyntax)
      else None
    else if k[0] == 's' then
      if k == "schema_id_guid" then Some(SchemaIdGuid)
      else if k == "system_only" then Some(SystemOnly)
      else if k == "search_flags" then Some(SearchFlags)
      else if k == "system_flags" then Some(SystemFlags)
      else if k == "schema_flags_ex" then Some(SchemaFlagsEx)
      else None
    else if k[0] == 'i' then
      if k == "is_single_valued" then Some(IsSingleValued)
      else if k == "is_member_of_partial_attribute_set" then Some(IsMemberOfPartialAttributeSet)
      else None
    else if k[0] == 'r' then
      if k == "range_lower" then Some(RangeLower)
      else if k == "range_upper" then Some(RangeUpper)
      else None
    else if k[0] == 'm' then
      if k == "mapi_id" then Some(MapiId)
      else None
    else None
  }

  /** No attribute name of a field starts with `source_`. */
  lemma PyNameNotSource(f: Field)
    ensures !StartsWith(PyName(f), "source_")
  {
    NotSource(PyName(f));
  }

  lemma PyNameInverse(f: Field)
    ensures FieldOfPyName(PyName(f)) == Some(f)
  {
    match f
    case Cn =>
    case LdapDisplayName =>
    case AttributeId =>
    case AttributeSyntax =>
    case OmSyntax =>
    case SchemaIdGuid =>
    case IsSingleValued =>
    case SystemOnly =>
    case SearchFlags =>
    case RangeLower =>
    case RangeUpper =>
    case AttributeSecurityGuid =>
    case MapiId =>
    case IsMemberOfPartialAttributeSet =>
    case SystemFlags =>
    case SchemaFlagsEx =>
  }

  /** A name can only start with `source_` if it starts with `so`. */
  lemma NotSource(k: string)
    requires |k| < 2 || k[0] != 's' || k[1] != 'o'
    ensures !StartsWith(k, "source_")
  {
    if |k| >= 7 {
      assert k[..7][0] == k[0] && k[..7][1] == k[1];
    }
  }

  /** Different fields have different attribute names. */
  lemma PyNameInjective(f: Field, g: Field)
    ensures PyName(f) == PyName(g) ==> f == g
  {
    PyNameInverse(f);
    PyNameInverse(g);
  }

  /** The items of `dataclasses.asdict` for the fields `fs`, in order, under their attribute names. */
  function FieldItems(a: Attribute, fs: seq<Field>): seq<(string, Option<string>)> {
    if fs == [] then [] else FieldItems(a, fs[..|fs| - 1]) + [(PyName(fs[|fs| - 1]), Get(a, fs[|fs| - 1]))]
  }

  /**
   * `dataclasses.asdict(attr).items()`: the sixteen fields in declaration
   * order (which is the order of the rules), then the two source fields.
   */
  function Items(a: Attribute): seq<(string, Option<string>)> {
    FieldItems(a, FieldOrder) + [("source_section", Some(a.section)), ("source_pdf", Some(a.pdf))]
  }

  /**
   * The cleaning comprehension of `export_to_json` over the items `items`:
   * the non-`None` items whose name does not start with `source_`.
   */
  function Clean(items: seq<(string, Option<string>)>): (r: map<string, string>)
    ensures forall k :: k in r ==> !StartsWith(k, "source_")
  {
    if items == [] then map[]
    else
      var t := Clean(items[..|items| - 1]);
      var (k, v) := items[|items| - 1];
      if v.Some? && !StartsWith(k, "source_") then t[k := v.value] else t
  }

  /** The raw entry of a record. */
  function RawEntry(a: Attribute): map<string, string> {
    Clean(Items(a))
  }

  /** Cleaning the items of the fields `fs` keeps exactly the fields of `fs` that were set, under their names. */
  lemma {:induction false} CleanFieldItems(a: Attribute, fs: seq<Field>)
    ensures var r := Clean(FieldItems(a, fs));
      && (forall f: Field :: (PyName(f) in r <==> f in fs && f in a.fields))
      && (forall f: Field :: PyName(f) in r ==> r[PyName(f)] == a.fields[f])
  {
    if fs != [] {
      var init, f := fs[..|fs| - 1], fs[|fs| - 1];
      CleanFieldItems(a, init);
      CleanFieldItemsStep(a, fs);
      forall g: Field ensures g in fs <==> g in init || g == f {
        assert fs == init + [f];
      }
      forall g: Field ensures PyName(g) == PyName(f) ==> g == f {
        PyNameInjective(g, f);
      }
    }
  }

  /** Cleaning the items of one more field adds it when it is set. */
  lemma CleanFieldItemsStep(a: Attribute, fs: seq<Field>)
    requires fs != []
    ensures var init, f := fs[..|fs| - 1], fs[|fs| - 1];
      Clean(FieldItems(a, fs))
        == if f in a.fields then Clean(FieldItems(a, init))[PyName(f) := a.fields[f]]
           else Clean(FieldItems(a, init))
  {
    var items := FieldItems(a, fs);
    assert items[..|items| - 1] == FieldItems(a, fs[..|fs| - 1]);
    PyNameNotSource(fs[|fs| - 1]);
  }

  /** Cleaning the items of fields keeps only names of fields that were set. */
  lemma {:induction false} CleanFieldItemsKeys(a: Attribute, fs: seq<Field>)
    ensures forall k :: k in Clean(FieldItems(a, fs)) ==>
      FieldOfPyName(k).Some? && FieldOfPyName(k).value in a.fields
  {
    if fs != [] {
      var init, f := fs[..|fs| - 1], fs[|fs| - 1];
      CleanFieldItemsKeys(a, init);
      CleanFieldItemsStep(a, fs);
      PyNameInverse(f);
    }
  }

  /**
   * The raw entry of a record holds exactly the fields that were set, each
   * under its attribute name with its value unchanged, and no source field.
   */
  lemma RawEntryExact(a: Attribute)
    ensures var r := RawEntry(a);
      && (forall f: Field :: (PyName(f) in r <==> f in a.fields))
      && (forall f: Field :: f in a.fields ==> r[PyName(f)] == a.fields[f])
      && (forall k :: k in r ==> FieldOfPyName(k).Some? && FieldOfPyName(k).value in a.fields)
      && (forall k :: k in r ==> !StartsWith(k, "source_"))
  {
    var fi := FieldItems(a, FieldOrder);
    var section, pdf := ("source_section", Some(a.section)), ("source_pdf", Some(a.pdf));
    assert Items(a) == (fi + [section]) + [pdf];
    CleanSkipsSource(fi + [section], pdf);
    CleanSkipsSource(fi, section);
    CleanFieldItems(a, FieldOrder);
    CleanFieldItemsKeys(a, FieldOrder);
    FieldOrderComplete();
  }

  /** An item whose name starts with `source_` is dropped. */
  lemma CleanSkipsSource(items: seq<(string, Option<string>)>, item: (string, Option<string>))
    requires |item.0| >= 7 && item.0[..7] == "source_"
    ensures Clean(items + [item]) == Clean(items)
  {
    assert (items + [item])[..|items|] == items;
  }

  /** `export_to_json`, up to writing the text: the raw entry of every record, under its key. */
  method ExportRaw(table: map<string, Attribute>) returns (raw: map<string, map<string, string>>)
    ensures raw.Keys == table.Keys
    ensures forall k :: k in raw ==> raw[k] == RawEntry(table[k])
  {
    raw := map[];
    var rest := table.Keys;
    while rest != {}
      invariant rest <= table.Keys
      invariant raw.Keys == table.Keys - rest
      invariant forall k :: k in raw ==> raw[k] == RawEntry(table[k])
      decreases |rest|
    {
      var k :| k in rest;
      raw := raw[k := RawEntry(table[k])];
      rest := rest - {k};
    }
  }
}
