/**
 * Per-field extraction inside one attribute block
 * (scripts/parse_ms_ada_pdfs.py, `parse_attribute_blocks`, lines 147-183):
 * the sixteen field rules `^\xa0<label>:\s*(.+)$` under `re.MULTILINE |
 * re.IGNORECASE`, the first match of each in the block, the repair of the
 * two flag fields whose value continues on the following lines, and the
 * whitespace normalisation of every stored value.
 */
module Fields {
  import opened Common
  import opened Text
  import opened Headers

  /** The attribute properties the parser extracts, one per field rule. */
  datatype Field =
    | Cn | LdapDisplayName | AttributeId | AttributeSyntax | OmSyntax | SchemaIdGuid
    | IsSingleValued | SystemOnly | SearchFlags | RangeLower | RangeUpper
    | AttributeSecurityGuid | MapiId | IsMemberOfPartialAttributeSet
    | SystemFlags | SchemaFlagsEx

  /** The field rules in the order the parser tries them. */
  const FieldOrder: seq<Field> :=
    [Cn, LdapDisplayName, AttributeId, AttributeSyntax, OmSyntax, SchemaIdGuid,
     IsSingleValued, SystemOnly, SearchFlags, RangeLower, RangeUpper,
     AttributeSecurityGuid, MapiId, IsMemberOfPartialAttributeSet,
     SystemFlags, SchemaFlagsEx]

  /** Every field has exactly one rule. */
  lemma FieldOrderComplete()
    ensures forall f: Field :: f in FieldOrder
    ensures forall i, j :: 0 <= i < j < |FieldOrder| ==> FieldOrder[i] != FieldOrder[j]
  {
    forall f: Field ensures f in FieldOrder {
      var i: nat :=
        match f
        case Cn => 0 case LdapDisplayName => 1 case AttributeId => 2 case AttributeSyntax => 3
        case OmSyntax => 4 case SchemaIdGuid => 5 case IsSingleValued => 6 case SystemOnly => 7
        case SearchFlags => 8 case RangeLower => 9 case RangeUpper => 10
        case AttributeSecurityGuid => 11 case MapiId => 12 case IsMemberOfPartialAttributeSet => 13
        case SystemFlags => 14 case SchemaFlagsEx => 15;
      assert FieldOrder[i] == f;
    }
  }

  /** The label a field's rule looks for, as it is written in the documents. */
  function Label(f: Field): string {
    match f
    case Cn => "cn"
    case LdapDisplayName => "ldapDisplayName"
    case AttributeId => "attributeId"
    case AttributeSyntax => "attributeSyntax"
    case OmSyntax => "omSyntax"
    case SchemaIdGuid => "schemaIdGuid"
    case IsSingleValued => "isSingleValued"
    case SystemOnly => "systemOnly"
    case SearchFlags => "searchFlags"
    case RangeLower => "rangeLower"
    case RangeUpper => "rangeUpper"
    case AttributeSecurityGuid => "attributeSecurityGuid"
    case MapiId => "mapiID"
    case IsMemberOfPartialAttributeSet => "isMemberOfPartialAttributeSet"
    case SystemFlags => "systemFlags"
    case SchemaFlagsEx => "schemaFlagsEx"
  }

  /** The two fields whose value may continue on the following lines. */
  predicate IsFlagField(f: Field) {
    f == SystemFlags || f == SchemaFlagsEx
  }

  /** A match of a field rule: group 0 is `[start, end)`, group 1 is `[value, end)`. */
  datatype FieldMatch = FieldMatch(start: nat, value: nat, end: nat)

  /**
   * The rule for label `tag` tried at `p`: a line start, one no-break space,
   * the label up to case, a colon, and then `\s*(.+)$`.
   */
  function MatchFieldAt(s: string, p: nat, tag: string): (m: Option<FieldMatch>)
    requires p <= |s|
    ensures m.Some? ==>
      && m.value.start == p
      && p + |tag| + 2 <= m.value.value < m.value.end <= |s|
      && m.value.end == LineEnd(s, m.value.value)
  {
    var colon := p + 1 + |tag|;
    if !AtLineStart(s, p) || colon >= |s| || s[p] != Nbsp
       || !FoldMatchAt(s, p + 1, tag) || s[colon] != ':' then None
    else
      match RestOfLine(s, colon + 1, 0)
      case None => None
      case Some((g, e)) => Some(FieldMatch(p, g, e))
  }

  /**
   * What a rule match consists of: a line that starts with a no-break
   * space, the label up to case and a colon; then only whitespace up to
   * group 1, which is a non-empty stretch running to the end of its line.
   */
  lemma FieldMatchShape(s: string, p: nat, tag: string)
    requires p <= |s| && MatchFieldAt(s, p, tag).Some?
    ensures var m := MatchFieldAt(s, p, tag).value;
      && AtLineStart(s, p) && s[p] == Nbsp
      && FoldMatchAt(s, p + 1, tag) && s[p + 1 + |tag|] == ':'
      && AllSpace(s[p + |tag| + 2..m.value])
      && s[m.value] != '\n'
      && '\n' !in s[m.value..m.end]
      && (m.end == |s| || s[m.end] == '\n')
  {
  }

  /** The rule for `tag` matches nowhere in `[a, b)`. */
  ghost predicate NoMatch(s: string, tag: string, a: nat, b: nat) {
    forall q :: a <= q < b && q <= |s| ==> MatchFieldAt(s, q, tag).None?
  }

  /** Extending a match-free range by one position on the left. */
  lemma NoMatchStep(s: string, tag: string, a: nat, b: nat)
    requires a <= |s| && MatchFieldAt(s, a, tag).None? && NoMatch(s, tag, a + 1, b)
    ensures NoMatch(s, tag, a, b)
  {
  }

  /** `pattern.search(s[from..])`: the first position from `from` on where the rule matches. */
  function SearchField(s: string, tag: string, from: nat): (m: Option<FieldMatch>)
    requires from <= |s|
    ensures m.Some? ==>
      && from <= m.value.start <= |s|
      && MatchFieldAt(s, m.value.start, tag) == m
      && NoMatch(s, tag, from, m.value.start)
    ensures m.None? ==> NoMatch(s, tag, from, |s| + 1)
    decreases |s| - from
  {
    var here := MatchFieldAt(s, from, tag);
    if here.Some? || from == |s| then here
    else
      var r := SearchField(s, tag, from + 1);
      NoMatchStep(s, tag, from, if r.Some? then r.value.start else |s| + 1);
      r
  }

  // ---------------------------------------------------------------------
  // Multiline repair of the flag fields

  /** The indent of a continuation line: two no-break spaces. */
  const DoubleNbsp: string := [Nbsp, Nbsp]

  /** A line that continues a flag value: indented by two no-break spaces, and not blank. */
  predicate IsContinuation(line: string) {
    StartsWith(line, DoubleNbsp) && (Contains(line, "FLAG_") || Strip(line) != "")
  }

  /** What a continuation line contributes: the line without its double no-break spaces, stripped. */
  function ContinuationText(line: string): string {
    Strip(RemoveAll(line, DoubleNbsp))
  }

  /** A continuation line always contributes something, so the parser's emptiness test never fails. */
  lemma ContinuationNonEmpty(line: string)
    requires IsContinuation(line)
    ensures ContinuationText(line) != ""
  {
    var c: char;
    if Contains(line, "FLAG_") {
      ContainsChars(line, "FLAG_", 0);
      c := 'F';
    } else {
      var i :| 0 <= i < |line| && !IsSpace(line[i]);
      c := line[i];
    }
    RemoveAllKeepsNonSpace(line, DoubleNbsp, c);
    StripNonEmpty(RemoveAll(line, DoubleNbsp), c);
  }

  /** The first line from `from` on that contains `t`. */
  function FirstContaining(lines: seq<string>, t: string, from: nat): (k: Option<nat>)
    requires from <= |lines|
    ensures k.Some? ==>
      && from <= k.value < |lines| && Contains(lines[k.value], t)
      && forall j :: from <= j < k.value ==> !Contains(lines[j], t)
    ensures k.None? ==> forall j :: from <= j < |lines| ==> !Contains(lines[j], t)
    decreases |lines| - from
  {
    if from == |lines| then None
    else if Contains(lines[from], t) then Some(from)
    else FirstContaining(lines, t, from + 1)
  }

  /**
   * Where the scan after the start line stops: the first line from `j` on
   * that neither contains `t` nor is a continuation line.
   */
  function ScanEnd(lines: seq<string>, t: string, j: nat): (e: nat)
    requires j <= |lines|
    ensures j <= e <= |lines|
    ensures e < |lines| ==> !Contains(lines[e], t) && !IsContinuation(lines[e])
    ensures forall i :: j <= i < e ==> Contains(lines[i], t) || IsContinuation(lines[i])
    decreases |lines| - j
  {
    if j == |lines| then j
    else if !Contains(lines[j], t) && !IsContinuation(lines[j]) then j
    else ScanEnd(lines, t, j + 1)
  }

  /** What one line after the start line adds to the value. */
  function Piece(l: string, t: string): string {
    if Contains(l, t) then "" else " " + ContinuationText(l)
  }

  /** What lines `lo` to `hi - 1` add to the value: `" " + ContinuationText(l)` for each that does not contain `t`. */
  function Appended(lines: seq<string>, t: string, lo: nat, hi: nat): string
    requires hi <= |lines|
    decreases hi
  {
    if hi <= lo then "" else Appended(lines, t, lo, hi - 1) + Piece(lines[hi - 1], t)
  }

  /** The scan end is the first position from `j` on that is neither a start line nor a continuation line. */
  lemma ScanEndAt(lines: seq<string>, t: string, j: nat, e: nat)
    requires j <= e <= |lines|
    requires forall i :: j <= i < e ==> Contains(lines[i], t) || IsContinuation(lines[i])
    requires e < |lines| ==> !Contains(lines[e], t) && !IsContinuation(lines[e])
    ensures ScanEnd(lines, t, j) == e
  {
  }

  /**
   * The repaired flag value: when some line contains the stripped match
   * text `t`, the first such line is the start line, and every later line
   * up to the first line that is neither another start line nor a
   * continuation line adds its text after one space.
   */
  function Repaired(lines: seq<string>, t: string, value: string): (r: string)
    ensures StartsWith(r, value)
  {
    match FirstContaining(lines, t, 0)
    case None => value
    case Some(k) =>
      var r := value + Appended(lines, t, k + 1, ScanEnd(lines, t, k + 1));
      assert r[..|value|] == value;
      r
  }

  /** Every line strictly between `k` and `i` is a start line or a continuation line. */
  ghost predicate Continued(lines: seq<string>, t: string, k: nat, i: nat)
    requires i <= |lines|
  {
    forall j :: k < j < i ==> Contains(lines[j], t) || IsContinuation(lines[j])
  }

  lemma ContinuedStep(lines: seq<string>, t: string, k: nat, i: nat)
    requires i < |lines| && Continued(lines, t, k, i)
    requires Contains(lines[i], t) || IsContinuation(lines[i])
    ensures Continued(lines, t, k, i + 1)
  {
  }

  /** `r` is the value with the pieces of the lines after the start line `k` and before `i`. */
  ghost predicate Built(lines: seq<string>, t: string, value: string, k: nat, i: nat, r: string)
    requires i <= |lines|
  {
    r == value + Appended(lines, t, k + 1, i)
  }

  /** Right after the start line `k`, nothing has been added yet. */
  lemma BuiltStart(lines: seq<string>, t: string, value: string, k: nat)
    requires k < |lines|
    ensures Built(lines, t, value, k, k + 1, value)
  {
    AppendNothing(value);
  }

  /** Another start line adds nothing. */
  lemma BuiltSkip(lines: seq<string>, t: string, value: string, k: nat, i: nat, r: string)
    requires k < i < |lines| && Built(lines, t, value, k, i, r) && Contains(lines[i], t)
    ensures Built(lines, t, value, k, i + 1, r)
  {
    AppendNothing(Appended(lines, t, k + 1, i));
  }

  /** A continuation line adds one space and its text. */
  lemma BuiltAdd(lines: seq<string>, t: string, value: string, k: nat, i: nat, r: string)
    requires k < i < |lines| && Built(lines, t, value, k, i, r) && !Contains(lines[i], t)
    ensures Built(lines, t, value, k, i + 1, r + (" " + ContinuationText(lines[i])))
  {
    Regroup(value, Appended(lines, t, k + 1, i), " " + ContinuationText(lines[i]));
  }

  /** Where the scan stops, the value built is the repaired value. */
  lemma BuiltRepaired(lines: seq<string>, t: string, value: string, k: nat, e: nat, r: string)
    requires k < e <= |lines| && FirstContaining(lines, t, 0) == Some(k)
    requires Built(lines, t, value, k, e, r) && Continued(lines, t, k, e)
    requires e < |lines| ==> !Contains(lines[e], t) && !IsContinuation(lines[e])
    ensures r == Repaired(lines, t, value)
  {
    ScanEndAt(lines, t, k + 1, e);
  }

  lemma AppendNothing(a: string)
    ensures a + "" == a
  {
  }

  lemma Regroup(a: string, b: string, c: string)
    ensures (a + b) + c == a + (b + c)
  {
  }

  /** The continuation loop of the parser, over the lines of the block. */
  method RepairMultiline(lines: seq<string>, t: string, value: string) returns (r: string)
    ensures r == Repaired(lines, t, value)
  {
    var found := false;
    r := value;
    ghost var k := 0;
    var i := 0;
    while i < |lines|
      invariant 0 <= i <= |lines|
      invariant !found ==> r == value && forall j :: 0 <= j < i ==> !Contains(lines[j], t)
      invariant found ==> k < i && FirstContaining(lines, t, 0) == Some(k)
      invariant found ==> Continued(lines, t, k, i) && Built(lines, t, value, k, i, r)
    {
      var line := lines[i];
      if Contains(line, t) {
        if !found {
          k := i;
          found := true;
          BuiltStart(lines, t, value, k);
        } else {
          BuiltSkip(lines, t, value, k, i, r);
          ContinuedStep(lines, t, k, i);
        }
        i := i + 1;
        continue;
      } else if found {
        if IsContinuation(line) {
          var continuation := ContinuationText(line);
          ContinuationNonEmpty(line);
          BuiltAdd(lines, t, value, k, i, r);
          ContinuedStep(lines, t, k, i);
          if continuation != "" {
            r := r + (" " + continuation);
          }
        } else {
          BuiltRepaired(lines, t, value, k, i, r);
          break;
        }
      }
      i := i + 1;
    }
    if found {
      BuiltRepaired(lines, t, value, k, i, r);
    }
  }

  // ---------------------------------------------------------------------
  // The value of each field

  /**
   * The value the parser stores for field `f` of `block`, or `None` when
   * the field's rule matches nowhere in the block.
   */
  function FieldValue(block: string, f: Field): (v: Option<string>)
    ensures v.Some? <==> exists p :: 0 <= p <= |block| && MatchFieldAt(block, p, Label(f)).Some?
    ensures v.Some? ==> Normalized(v.value)
  {
    match SearchField(block, Label(f), 0)
    case None => None
    case Some(m) =>
      var first := Strip(block[m.value..m.end]);
      var full :=
        if IsFlagField(f) && EndsWith(first, "|")
        then Repaired(SplitLines(block), Strip(block[m.start..m.end]), first)
        else first;
      Some(Normalize(full))
  }

  /**
   * A well-formed field line is matched: when the first line of the block
   * where the rule could match starts at `p` with a no-break space, the
   * label up to case and a colon, and the value starts at `j` after
   * whitespace, then the first match is that line, with group 1 from `j` to
   * the end of its line.
   */
  lemma FieldLineMatched(block: string, tag: string, p: nat, j: nat)
    requires p < |block| && AtLineStart(block, p) && block[p] == Nbsp
    requires p + 1 + |tag| < |block| && FoldMatchAt(block, p + 1, tag) && block[p + 1 + |tag|] == ':'
    requires p + |tag| + 2 <= j < |block| && AllSpace(block[p + |tag| + 2..j]) && !IsSpace(block[j])
    requires forall q: nat :: q < p ==> MatchFieldAt(block, q, tag).None?
    ensures SearchField(block, tag, 0) == Some(FieldMatch(p, j, LineEnd(block, j)))
  {
    RestOfLineAt(block, p + |tag| + 2, 0, j);
    assert MatchFieldAt(block, p, tag) == Some(FieldMatch(p, j, LineEnd(block, j)));
    var m := SearchField(block, tag, 0);
    assert m.Some?;
    assert m.value.start == p;
  }

  /**
   * The value of a field whose line is well formed: the text after the
   * colon and the whitespace, to the end of the line, stripped and
   * normalised, when the field is not a flag field continued with `|`.
   */
  lemma FieldRecovered(block: string, f: Field, p: nat, j: nat)
    requires p < |block| && AtLineStart(block, p) && block[p] == Nbsp
    requires p + 1 + |Label(f)| < |block| && FoldMatchAt(block, p + 1, Label(f))
    requires block[p + 1 + |Label(f)|] == ':'
    requires p + |Label(f)| + 2 <= j < |block| && AllSpace(block[p + |Label(f)| + 2..j]) && !IsSpace(block[j])
    requires forall q: nat :: q < p ==> MatchFieldAt(block, q, Label(f)).None?
    requires !IsFlagField(f) || !EndsWith(Strip(block[j..LineEnd(block, j)]), "|")
    ensures FieldValue(block, f) == Some(Normalize(Strip(block[j..LineEnd(block, j)])))
  {
    FieldLineMatched(block, Label(f), p, j);
  }

  /**
   * The value of a flag field whose well-formed line ends in `|`: the
   * stripped text after the colon, repaired with the continuation lines of
   * the block, then normalised.
   */
  lemma FlagFieldRecovered(block: string, f: Field, p: nat, j: nat)
    requires IsFlagField(f)
    requires p < |block| && AtLineStart(block, p) && block[p] == Nbsp
    requires p + 1 + |Label(f)| < |block| && FoldMatchAt(block, p + 1, Label(f))
    requires block[p + 1 + |Label(f)|] == ':'
    requires p + |Label(f)| + 2 <= j < |block| && AllSpace(block[p + |Label(f)| + 2..j]) && !IsSpace(block[j])
    requires forall q: nat :: q < p ==> MatchFieldAt(block, q, Label(f)).None?
    requires EndsWith(Strip(block[j..LineEnd(block, j)]), "|")
    ensures var e := LineEnd(block, j);
      FieldValue(block, f)
      == Some(Normalize(Repaired(SplitLines(block), Strip(block[p..e]), Strip(block[j..e]))))
  {
    FieldLineMatched(block, Label(f), p, j);
  }

  /** One field rule run over a block: the body of the parser's loop over the rules. */
  method ExtractField(block: string, f: Field) returns (v: Option<string>)
    ensures v == FieldValue(block, f)
  {
    match SearchField(block, Label(f), 0)
    case None =>
      v := None;
    case Some(m) =>
      var value := Strip(block[m.value..m.end]);
      if IsFlagField(f) && EndsWith(value, "|") {
        value := RepairMultiline(SplitLines(block), Strip(block[m.start..m.end]), value);
      }
      v := Some(Normalize(value));
  }

  /**
   * The fields of a block, by running every rule: a field is stored
   * exactly when its rule matched, with its normalised value.
   */
  method ExtractFields(block: string) returns (fields: map<Field, string>)
    ensures forall f :: f in fields <==> FieldValue(block, f).Some?
    ensures forall f :: f in fields ==> fields[f] == FieldValue(block, f).value
  {
    fields := RunRules(block, FieldOrder);
    FieldOrderComplete();
  }

  /** The loop over the rules `order`, storing each field whose rule matched. */
  method RunRules(block: string, order: seq<Field>) returns (fields: map<Field, string>)
    ensures forall f :: f in fields <==> f in order && FieldValue(block, f).Some?
    ensures forall f :: f in fields ==> fields[f] == FieldValue(block, f).value
  {
    fields := map[];
    var i := 0;
    while i < |order|
      invariant 0 <= i <= |order|
      invariant forall f :: f in fields <==> f in order[..i] && FieldValue(block, f).Some?
      invariant forall f :: f in fields ==> fields[f] == FieldValue(block, f).value
    {
      var f := order[i];
      assert order[..i + 1] == order[..i] + [f];
      var v := ExtractField(block, f);
      if v.Some? {
        fields := fields[f := v.value];
      }
      i := i + 1;
    }
    assert order[..i] == order;
  }
}
