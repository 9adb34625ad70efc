/**
 * The attribute records and the two loops that build them
 * (scripts/parse_ms_ada_pdfs.py): `parse_attribute_blocks`, which makes one
 * record per heading, and `parse_multiple_pdfs`, which files the records of
 * several documents under their schema GUID or display name.
 */
module Parser {
  import opened Common
  import opened Text
  import opened Headers
  import opened Fields

  /**
   * One `ADAttribute`: the fields that are not `None`, with their values,
   * and the two source fields (the heading's section number and the
   * document name).
   */
  datatype Attribute = Attribute(fields: map<Field, string>, section: string, pdf: string)

  /** The value of a field, `None` when it was never set. */
  function Get(a: Attribute, f: Field): Option<string> {
    if f in a.fields then Some(a.fields[f]) else None
  }

  /** The fields the rules give for a block. */
  function RuleFields(block: string): map<Field, string> {
    map f: Field | FieldValue(block, f).Some? :: FieldValue(block, f).value
  }

  /** A map that holds exactly the fields the rules give, with their values, is `RuleFields`. */
  lemma RuleFieldsExact(block: string, fields: map<Field, string>)
    requires forall f :: f in fields <==> FieldValue(block, f).Some?
    requires forall f :: f in fields ==> fields[f] == FieldValue(block, f).value
    ensures fields == RuleFields(block)
  {
  }

  /**
   * The record for heading `i`: the rule fields of its block; when those
   * give no display name (or an empty one) and the stripped heading text is
   * not empty, the display name is that heading text.
   */
  function RecordAt(text: string, pdf: string, hs: seq<Header>, i: nat): Attribute
    requires i < |hs| && Ascending(text, hs)
  {
    var fields := RuleFields(Block(text, hs, i));
    var name := Strip(hs[i].heading);
    var display := if LdapDisplayName in fields then Some(fields[LdapDisplayName]) else None;
    Attribute(
      if !Truthy(display) && name != "" then fields[LdapDisplayName := name] else fields,
      hs[i].section, pdf)
  }

  /** The records of the first `n` headings. */
  function RecordsUpTo(text: string, pdf: string, hs: seq<Header>, n: nat): (rs: seq<Attribute>)
    requires n <= |hs| && Ascending(text, hs)
    ensures |rs| == n
  {
    if n == 0 then [] else RecordsUpTo(text, pdf, hs, n - 1) + [RecordAt(text, pdf, hs, n - 1)]
  }

  /** Record `i` of the first `n` is the record of heading `i`. */
  lemma {:induction false} RecordsUpToIndex(text: string, pdf: string, hs: seq<Header>, n: nat, i: nat)
    requires i < n <= |hs| && Ascending(text, hs)
    ensures RecordsUpTo(text, pdf, hs, n)[i] == RecordAt(text, pdf, hs, i)
  {
    var prev := RecordsUpTo(text, pdf, hs, n - 1);
    var last := RecordAt(text, pdf, hs, n - 1);
    assert RecordsUpTo(text, pdf, hs, n) == prev + [last];
    if n > 1 {
      RecordsUpToIndex(text, pdf, hs, n - 1, if i < n - 1 then i else 0);
    }
    if i < n - 1 {
      assert (prev + [last])[i] == prev[i];
    }
  }

  /** The records `parse_attribute_blocks` returns for a document. */
  function Records(text: string, pdf: string): seq<Attribute> {
    RecordsUpTo(text, pdf, Headings(text), |Headings(text)|)
  }

  /**
   * The body of the loop in `parse_attribute_blocks`: the block of heading
   * `i`, its fields, and the display-name fallback.
   */
  method ParseBlock(text: string, pdf: string, hs: seq<Header>, i: nat) returns (attribute: Attribute)
    requires i < |hs| && Ascending(text, hs)
    ensures attribute == RecordAt(text, pdf, hs, i)
  {
    var h := hs[i];
    var name := Strip(h.heading);
    var block;
    if i + 1 < |hs| {
      block := text[h.start..hs[i + 1].start];
    } else {
      block := text[h.start..Min(h.start + LastBlockWindow, |text|)];
    }
    BlockBounds(text, hs, i, block);
    var fields := ExtractFields(block);
    RuleFieldsExact(block, fields);
    var display := if LdapDisplayName in fields then Some(fields[LdapDisplayName]) else None;
    if !Truthy(display) && name != "" {
      fields := fields[LdapDisplayName := name];
    }
    attribute := Attribute(fields, h.section, pdf);
  }

  /** `parse_attribute_blocks`: one record per heading, in the order of the headings. */
  method ParseAttributeBlocks(text: string, pdf: string) returns (attrs: seq<Attribute>)
    ensures attrs == Records(text, pdf)
  {
    var hs := Headings(text);
    attrs := ParseBlocks(text, pdf, hs);
  }

  /** The loop of `parse_attribute_blocks` over the headings `hs` of `text`. */
  method ParseBlocks(text: string, pdf: string, hs: seq<Header>) returns (attrs: seq<Attribute>)
    requires Ascending(text, hs)
    ensures attrs == RecordsUpTo(text, pdf, hs, |hs|)
  {
    attrs := [];
    var i := 0;
    while i < |hs|
      invariant 0 <= i <= |hs|
      invariant attrs == RecordsUpTo(text, pdf, hs, i)
    {
      var attribute := ParseBlock(text, pdf, hs, i);
      RecordsUpToStep(text, pdf, hs, i, attribute);
      attrs := attrs + [attribute];
      i := i + 1;
    }
  }

  /** The records of the first `i + 1` headings: those of the first `i`, then record `i`. */
  lemma RecordsUpToStep(text: string, pdf: string, hs: seq<Header>, i: nat, attribute: Attribute)
    requires i < |hs| && Ascending(text, hs) && attribute == RecordAt(text, pdf, hs, i)
    ensures RecordsUpTo(text, pdf, hs, i + 1) == RecordsUpTo(text, pdf, hs, i) + [attribute]
  {
  }

  /** Record `i` of a document is the record of its heading `i`. */
  lemma RecordsIndex(text: string, pdf: string, i: nat)
    requires i < |Headings(text)|
    ensures |Records(text, pdf)| == |Headings(text)|
    ensures Records(text, pdf)[i] == RecordAt(text, pdf, Headings(text), i)
  {
    RecordsUpToIndex(text, pdf, Headings(text), |Headings(text)|, i);
  }

  /**
   * The fields of the record for a heading: every field other than the
   * display name is stored exactly when its rule matched in the block, with
   * the value the rule gives; the display name is the extracted one when
   * that is non-empty, else the stripped heading text when that is
   * non-empty, else what the rule gave (nothing, or the empty string).
   */
  lemma RecordAtFields(text: string, pdf: string, hs: seq<Header>, i: nat)
    requires i < |hs| && Ascending(text, hs)
    ensures var a := RecordAt(text, pdf, hs, i); var block := Block(text, hs, i);
      && (forall f :: f != LdapDisplayName ==> Get(a, f) == FieldValue(block, f))
      && var extracted := FieldValue(block, LdapDisplayName);
         var name := Strip(hs[i].heading);
         Get(a, LdapDisplayName)
           == if Truthy(extracted) then extracted else if name != "" then Some(name) else extracted
  {
  }

  /**
   * Records and headings correspond: one record per heading, in document
   * order, carrying the heading's section number and the document name.
   */
  lemma RecordsFollowHeadings(text: string, pdf: string)
    ensures var rs := Records(text, pdf); var hs := Headings(text);
      && |rs| == |hs|
      && forall i :: 0 <= i < |rs| ==> rs[i].section == hs[i].section && rs[i].pdf == pdf
  {
    forall i | 0 <= i < |Headings(text)|
      ensures Records(text, pdf)[i].section == Headings(text)[i].section
      ensures Records(text, pdf)[i].pdf == pdf
    {
      RecordsIndex(text, pdf, i);
    }
  }

  /** A text without headings gives no records; in particular the empty text gives none. */
  lemma NoHeadingsNoRecords(text: string, pdf: string)
    requires Headings(text) == []
    ensures Records(text, pdf) == []
  {
  }

  /** The fields of record `i` of a document, as `RecordAtFields` states them for its block. */
  lemma RecordFields(text: string, pdf: string, i: nat)
    requires i < |Headings(text)|
    ensures var a := Records(text, pdf)[i]; var block := Block(text, Headings(text), i);
      && (forall f :: f != LdapDisplayName ==> Get(a, f) == FieldValue(block, f))
      && var extracted := FieldValue(block, LdapDisplayName);
         var name := Strip(Headings(text)[i].heading);
         Get(a, LdapDisplayName)
           == if Truthy(extracted) then extracted else if name != "" then Some(name) else extracted
  {
    RecordsIndex(text, pdf, i);
    RecordAtFields(text, pdf, Headings(text), i);
  }

  /**
   * Every stored value has no whitespace at either end; every value a rule
   * produced also has its inner whitespace collapsed to single spaces.
   */
  lemma RecordAtClean(text: string, pdf: string, hs: seq<Header>, i: nat, f: Field)
    requires i < |hs| && Ascending(text, hs)
    requires f in RecordAt(text, pdf, hs, i).fields
    ensures var v := RecordAt(text, pdf, hs, i).fields[f];
      && NoOuterSpace(v)
      && (FieldValue(Block(text, hs, i), f) == Some(v) ==> Normalized(v))
  {
    var block := Block(text, hs, i);
    var v := RecordAt(text, pdf, hs, i).fields[f];
    RecordAtFields(text, pdf, hs, i);
    if FieldValue(block, f) != Some(v) {
      assert f == LdapDisplayName && v == Strip(hs[i].heading);
    }
  }

  /** `RecordAtClean` for the records of a document. */
  lemma RecordValuesClean(text: string, pdf: string, i: nat, f: Field)
    requires i < |Headings(text)|
    requires f in Records(text, pdf)[i].fields
    ensures var v := Records(text, pdf)[i].fields[f];
      && NoOuterSpace(v)
      && (FieldValue(Block(text, Headings(text), i), f) == Some(v) ==> Normalized(v))
  {
    RecordsIndex(text, pdf, i);
    RecordAtClean(text, pdf, Headings(text), i, f);
  }

  // ---------------------------------------------------------------------
  // Documents

  /**
   * A document given on the command line: its file name, whether the file
   * exists, and its extracted text (empty when it could not be read).
   */
  datatype Document = Document(name: string, present: bool, text: string)

  /** `parse_pdf_file`: no records for an empty text, otherwise the records of its blocks. */
  method ParsePdfFile(d: Document) returns (attrs: seq<Attribute>)
    ensures attrs == Records(d.text, d.name)
  {
    if d.text == "" {
      EmptyTextNoHeadings();
      return [];
    }
    attrs := ParseAttributeBlocks(d.text, d.name);
  }

  /** The records of a document; a missing file is skipped. */
  function DocumentRecords(d: Document): seq<Attribute> {
    if d.present then Records(d.text, d.name) else []
  }

  /** The records of all documents, in order. */
  function AllRecords(ds: seq<Document>): seq<Attribute> {
    if ds == [] then [] else AllRecords(ds[..|ds| - 1]) + DocumentRecords(ds[|ds| - 1])
  }

  // ---------------------------------------------------------------------
  // Consolidation

  /** A 36-character key with a hyphen is taken for a GUID and lowercased. */
  function Canonical(k: string): string {
    if |k| == 36 && '-' in k then Lower(k) else k
  }

  /** Canonicalising a key twice gives what canonicalising it once gives. */
  lemma CanonicalIdempotent(k: string)
    ensures Canonical(Canonical(k)) == Canonical(k)
  {
    if |k| == 36 && '-' in k {
      var i :| 0 <= i < |k| && k[i] == '-';
      assert Lower(k)[i] == '-';
      LowerIdempotent(k);
    }
  }

  /**
   * The table key of a record: its schema GUID if that is non-empty, else
   * its display name; canonicalised. `None` when neither is non-empty.
   */
  function KeyOf(a: Attribute): Option<string> {
    var k := if Truthy(Get(a, SchemaIdGuid)) then Get(a, SchemaIdGuid) else Get(a, LdapDisplayName);
    if Truthy(k) then Some(Canonical(k.value)) else None
  }

  /**
   * Which records get a key: exactly those with a non-empty GUID or
   * display name; the key is the GUID when there is one, and it is
   * canonical and non-empty.
   */
  lemma KeyOfSpec(a: Attribute)
    ensures KeyOf(a).Some? <==> Truthy(Get(a, SchemaIdGuid)) || Truthy(Get(a, LdapDisplayName))
    ensures Truthy(Get(a, SchemaIdGuid)) ==> KeyOf(a) == Some(Canonical(a.fields[SchemaIdGuid]))
    ensures KeyOf(a).Some? ==> KeyOf(a).value != "" && Canonical(KeyOf(a).value) == KeyOf(a).value
  {
    var k := if Truthy(Get(a, SchemaIdGuid)) then Get(a, SchemaIdGuid) else Get(a, LdapDisplayName);
    if Truthy(k) {
      CanonicalIdempotent(k.value);
    }
  }

  /** The table after filing the records `rs` in order; a later record replaces an earlier one with the same key. */
  function Consolidate(rs: seq<Attribute>): map<string, Attribute> {
    if rs == [] then map[] else Filed(Consolidate(rs[..|rs| - 1]), rs[|rs| - 1])
  }

  /** The table after filing one more record: a record without a key is dropped. */
  function Filed(t: map<string, Attribute>, a: Attribute): map<string, Attribute> {
    match KeyOf(a)
    case None => t
    case Some(k) => t[k := a]
  }

  /** Some record of `rs` has key `k`. */
  ghost predicate HasKey(rs: seq<Attribute>, k: string) {
    exists i :: 0 <= i < |rs| && KeyOf(rs[i]) == Some(k)
  }

  /** A non-empty sequence has a record with key `k` in its front or as its last element. */
  lemma HasKeySplit(rs: seq<Attribute>, k: string)
    requires rs != []
    ensures HasKey(rs, k) <==> HasKey(rs[..|rs| - 1], k) || KeyOf(rs[|rs| - 1]) == Some(k)
  {
    var init := rs[..|rs| - 1];
    if HasKey(init, k) {
      var i :| 0 <= i < |init| && KeyOf(init[i]) == Some(k);
      assert rs[i] == init[i];
    }
    if HasKey(rs, k) {
      var i :| 0 <= i < |rs| && KeyOf(rs[i]) == Some(k);
      if i < |init| {
        assert init[i] == rs[i];
      }
    }
  }

  /** The table has an entry for a key exactly when some record has that key. */
  lemma {:induction false} ConsolidateKeys(rs: seq<Attribute>, k: string)
    ensures k in Consolidate(rs) <==> exists i :: 0 <= i < |rs| && KeyOf(rs[i]) == Some(k)
  {
    if rs != [] {
      ConsolidateKeys(rs[..|rs| - 1], k);
      HasKeySplit(rs, k);
    }
  }

  /** The entry for a key is the last record with that key, whole. */
  lemma {:induction false} ConsolidateLastWins(rs: seq<Attribute>, i: nat, k: string)
    requires i < |rs| && KeyOf(rs[i]) == Some(k)
    requires forall j :: i < j < |rs| ==> KeyOf(rs[j]) != Some(k)
    ensures k in Consolidate(rs) && Consolidate(rs)[k] == rs[i]
  {
    if i < |rs| - 1 {
      var init := rs[..|rs| - 1];
      ConsolidateLastWins(init, i, k);
    }
  }

  /** Every key in the table is non-empty and canonical. */
  lemma ConsolidateKeysCanonical(rs: seq<Attribute>, k: string)
    requires k in Consolidate(rs)
    ensures k != "" && Canonical(k) == k
  {
    ConsolidateKeys(rs, k);
    var i :| 0 <= i < |rs| && KeyOf(rs[i]) == Some(k);
    KeyOfSpec(rs[i]);
  }

  /** The body of the inner loop of `parse_multiple_pdfs`: files one record under its key. */
  method FileRecord(table: map<string, Attribute>, attr: Attribute) returns (t: map<string, Attribute>)
    ensures t == Filed(table, attr)
  {
    t := table;
    var key := if Truthy(Get(attr, SchemaIdGuid)) then Get(attr, SchemaIdGuid) else Get(attr, LdapDisplayName);
    if Truthy(key) {
      var k := key.value;
      if |k| == 36 && '-' in k {
        k := Lower(k);
      }
      t := t[k := attr];
    }
  }

  /** The inner loop of `parse_multiple_pdfs`: files the records of one document in order. */
  method FileRecords(table: map<string, Attribute>, ghost done: seq<Attribute>, attrs: seq<Attribute>)
    returns (t: map<string, Attribute>)
    requires table == Consolidate(done)
    ensures t == Consolidate(done + attrs)
  {
    t := table;
    var j := 0;
    assert done + attrs[..j] == done;
    while j < |attrs|
      invariant 0 <= j <= |attrs|
      invariant t == Consolidate(done + attrs[..j])
    {
      ConsolidateStep(done, attrs, j);
      t := FileRecord(t, attrs[j]);
      j := j + 1;
    }
    assert attrs[..j] == attrs;
  }

  /** Filing one more record of `attrs` after those before it. */
  lemma ConsolidateStep(done: seq<Attribute>, attrs: seq<Attribute>, j: nat)
    requires j < |attrs|
    ensures Consolidate(done + attrs[..j + 1]) == Filed(Consolidate(done + attrs[..j]), attrs[j])
  {
    var rs := done + attrs[..j + 1];
    assert rs[..|rs| - 1] == done + attrs[..j];
    assert rs[|rs| - 1] == attrs[j];
  }

  /** The records of the first `n + 1` documents extend those of the first `n`. */
  lemma AllRecordsStep(docs: seq<Document>, n: nat)
    requires n < |docs|
    ensures AllRecords(docs[..n + 1]) == AllRecords(docs[..n]) + DocumentRecords(docs[n])
  {
    assert docs[..n + 1][..n] == docs[..n];
  }

  /** `parse_multiple_pdfs`: the records of all present documents, filed under their keys. */
  method ParseMultiplePdfs(docs: seq<Document>) returns (table: map<string, Attribute>)
    ensures table == Consolidate(AllRecords(docs))
  {
    table := map[];
    var n := 0;
    while n < |docs|
      invariant 0 <= n <= |docs|
      invariant table == Consolidate(AllRecords(docs[..n]))
    {
      var d := docs[n];
      AllRecordsStep(docs, n);
      if !d.present {
        assert AllRecords(docs[..n]) + [] == AllRecords(docs[..n]);
        n := n + 1;
        continue;
      }
      var attrs := ParsePdfFile(d);
      table := FileRecords(table, AllRecords(docs[..n]), attrs);
      n := n + 1;
    }
    assert docs[..n] == docs;
  }
}
