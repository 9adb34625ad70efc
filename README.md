# Active Directory schema extraction and lookup, modelled in Dafny

This project models the core of a tool that builds Active Directory
attribute schemas from Microsoft's MS-ADA documents and answers questions
about them. It has two parts.

* **The PDF attribute parser** (`scripts/parse_ms_ada_pdfs.py`). This part
  starts from the text of a document.
  - It finds every heading that matches `^(\d+\.\d+)\s+Attribute\s+(.+)$`.
  - It cuts the text into one block per heading. The last block is a
    2000-character window.
  - It runs the sixteen field rules (`^\xa0label:\s*(.+)$`, matched
    case-insensitively) over each block.
  - It repairs the two flag fields when their value continues on later
    lines.
  - It normalises whitespace and falls back to the heading text for a
    missing display name.
  - It files the records of several documents in one table, keyed by
    schema GUID or display name. A later record replaces an earlier one.
  - It converts that table into the "enhanced" schema (booleans and
    integers coerced, empty fields dropped) and into the raw schema
    (`None` and `source_*` fields dropped).
* **The command-line tool's logic** (`src/ad_schema_tool/cli.py`), without
  its printing.
  - It turns an enhanced schema into a GUID-to-name mapping.
  - It looks a GUID up, and looks a name up through the reverse mapping.
  - It searches names for a pattern, case-insensitively, sorted by name.
  - It splits a name into plain and matched pieces for highlighting.
  - It reads GUID lists and intersects them.

Modules follow the program's structure:
- `Common`: option, result and JSON values.
- `Text`: Python string primitives over `seq<char>`.
- `Sorting`: `sorted(..., key=...)` as a stable insertion sort, with code-point string order.
- `Headers`: the heading scan and the blocks.
- `Fields`: the field rules and multiline repair.
- `Parser`: records and consolidation.
- `Export`: the two exporters.
- `Cli`: the command-line logic.

The modelling choices are these:
- The regular expressions are written out as matchers. Each `\s*` and `\s+`
  may cross a line break, as it does in Python. Python's backtracking is
  modelled where it matters: `(.+)` needs a first character that is not a
  line break.
- `finditer` is modelled as the leftmost, non-overlapping scan, and `search`
  as the first match.
- The loops of the source are methods with loop invariants. Each is proved
  equal to a function that states the result directly.
- Each ADAttribute record is a value: a map of its non-`None` fields, plus
  the two source fields. The per-field `setattr` updates are functional
  updates of that local value.
- A Python dict that is iterated in order is a sequence of distinct-key
  pairs (`Cli.PyDict`). A dict that is only looked up is a Dafny `map`.

## Model

| member | source | states |
|---|---|---|
| Text.Strip | scripts/parse_ms_ada_pdfs.py:132 | `str.strip()`: the result has no leading or trailing whitespace, and it is empty exactly when the input is all whitespace |
| Text.Collapse | scripts/parse_ms_ada_pdfs.py:181 | `re.sub(r"\s+", " ", v)`: no two adjacent whitespace characters remain, every remaining one is a plain space, and the result is empty exactly when the input is |
| Text.Normalize | scripts/parse_ms_ada_pdfs.py:181-182 | collapse then strip: the result is normalised (no outer whitespace, no whitespace run, only plain spaces), and it is empty exactly when the input is all whitespace |
| Text.NormalizeIdempotent | scripts/parse_ms_ada_pdfs.py:181-182 | normalising a normalised value changes nothing |
| Text.CollapseOfNormalized | scripts/parse_ms_ada_pdfs.py:181 | collapsing a string with no whitespace run, only plain spaces and no leading whitespace returns it unchanged |
| Text.SplitLines | scripts/parse_ms_ada_pdfs.py:158 | `split("\n")`: at least one part, no part contains a line break, and joining the parts with `\n` gives back the text |
| Text.ContainsChars | scripts/parse_ms_ada_pdfs.py:169 | every character of `t` occurs in a string that contains `t` |
| Text.RemoveAllKeepsNonSpace | scripts/parse_ms_ada_pdfs.py:171 | `replace(t, "")` with an all-whitespace `t` keeps every non-whitespace character |
| Text.StripNonEmpty | scripts/parse_ms_ada_pdfs.py:169-172 | a string with a non-whitespace character does not strip to empty |
| Text.LowerIdempotent | scripts/parse_ms_ada_pdfs.py:222-223 | lowercasing twice is lowercasing once |
| Text.DigitsValueShowNat | scripts/parse_ms_ada_pdfs.py:279 | a natural number's decimal digits have that number as their value |
| Text.ParseIntShowInt | scripts/parse_ms_ada_pdfs.py:279 | `int(str(n)) == n` for every integer that `str()` writes, that is, one of at most 4300 digits |
| Text.ShowNatDigitsValue | scripts/parse_ms_ada_pdfs.py:279 | the decimal text of the value of a run of digits is no longer than that run |
| Text.ParseIntBounded | scripts/parse_ms_ada_pdfs.py:279 | every integer `int()` returns has at most 4300 digits |
| Text.ParseIntTooLong | scripts/parse_ms_ada_pdfs.py:279-281 | a run of more than 4300 digits is the `ValueError` path, even when its value is small |
| Sorting.LessTotal | src/ad_schema_tool/cli.py:229 | string order is total |
| Sorting.LessTransitive | src/ad_schema_tool/cli.py:229 | string order is transitive |
| Sorting.LessAsymmetric | src/ad_schema_tool/cli.py:229 | string order is asymmetric |
| Sorting.SortByPermutes | src/ad_schema_tool/cli.py:229 | `sorted(s, key=k)` is a permutation of `s` |
| Sorting.SortBySorted | src/ad_schema_tool/cli.py:229 | `sorted(s, key=k)` is in ascending key order |
| Sorting.SortByStable | src/ad_schema_tool/cli.py:229 | `sorted` is stable: for every key value, the elements with that key keep their original order |
| Sorting.SortDistinctStrictly | src/ad_schema_tool/cli.py:358 | sorting distinct strings gives a strictly ascending sequence |
| Headers.RestOfLine | scripts/parse_ms_ada_pdfs.py:54 | `\s+(.+)$` from a position: some whitespace (possibly across line breaks), then a first character that is not a line break, then the rest of that line; and no match is possible exactly when every such first character would be a line break |
| Headers.MatchHeaderAt | scripts/parse_ms_ada_pdfs.py:54 | the heading match at a position, if any, starts there and ends inside the text |
| Headers.HeaderRecovered | scripts/parse_ms_ada_pdfs.py:54 | a line that starts with `\d+\.\d+`, whitespace, `Attribute`, whitespace and a character that is not whitespace matches there, with that section number and the rest of the line as its heading text |
| Headers.SectionEndAt | scripts/parse_ms_ada_pdfs.py:54 | `\d+\.\d+` matched from a position ends at the first character after the second run of digits |
| Headers.RestOfLineAt | scripts/parse_ms_ada_pdfs.py:54 | `\s+(.+)$` over whitespace and then a character that is not whitespace captures from that character to the end of its line |
| Headers.HeaderShape | scripts/parse_ms_ada_pdfs.py:54 | a heading match starts at a line start with a `\d+\.\d+` section number, and its heading text is non-empty, contains no line break and runs to the end of its line |
| Headers.FindAllIsScan | scripts/parse_ms_ada_pdfs.py:128 | `finditer` yields exactly the leftmost, non-overlapping matches in order, with no match in any skipped gap |
| Headers.Headings | scripts/parse_ms_ada_pdfs.py:128 | the heading starts are ascending and inside the text |
| Headers.HeadingsOrdered | scripts/parse_ms_ada_pdfs.py:128 | each heading match is non-empty and inside the text, and every match ends before the next one starts |
| Headers.BlocksContiguous | scripts/parse_ms_ada_pdfs.py:135-138 | the blocks before block `n`, joined, are exactly the text from the first heading to heading `n`, so the blocks are contiguous and do not overlap |
| Headers.LastBlockWindowed | scripts/parse_ms_ada_pdfs.py:139-141 | the last block starts at its heading, is at most 2000 characters long, and is shorter only when it reaches the end of the text |
| Headers.NoHeadingNoBlocks | scripts/parse_ms_ada_pdfs.py:128 | a text in which no heading matches anywhere has no headings |
| Headers.EmptyTextNoHeadings | scripts/parse_ms_ada_pdfs.py:197-199 | the empty text has no headings |
| Fields.FieldOrderComplete | scripts/parse_ms_ada_pdfs.py:56-104 | the rule order lists each of the sixteen fields exactly once |
| Fields.FieldMatchShape | scripts/parse_ms_ada_pdfs.py:56-104 | a rule match starts at a line start with one no-break space and the label (up to `re.IGNORECASE`) and a colon; the captured value starts after whitespace with a character that is not a line break, and runs to the end of its line |
| Fields.SearchField | scripts/parse_ms_ada_pdfs.py:148 | `pattern.search`: the match found is the match at its start and no earlier position matches; when nothing is found, no position matches |
| Fields.ContinuationNonEmpty | scripts/parse_ms_ada_pdfs.py:168-173 | a continuation line always contributes a non-empty text, so the `if continuation:` test always passes |
| Fields.FirstContaining | scripts/parse_ms_ada_pdfs.py:162-165 | the start line is the first line that contains the stripped match text |
| Fields.ScanEnd | scripts/parse_ms_ada_pdfs.py:166-176 | the scan stops at the first line after the start line that neither contains the match text nor is a continuation line |
| Fields.Repaired | scripts/parse_ms_ada_pdfs.py:153-178 | the repaired value begins with the first value |
| Fields.RepairMultiline | scripts/parse_ms_ada_pdfs.py:158-178 | the line loop returns the first value followed, for every line after the start line up to the first line that stops the scan, by one space and that line's text, except for lines that contain the match text again |
| Fields.FieldValue | scripts/parse_ms_ada_pdfs.py:147-183 | a field has a value exactly when its rule matches somewhere in the block, and every value is normalised |
| Fields.FieldLineMatched | scripts/parse_ms_ada_pdfs.py:56-104 | the first line of the form no-break space, label (up to case), colon, whitespace, value is the line the rule's search finds, and its capture is that value up to the end of the line |
| Fields.FieldRecovered | scripts/parse_ms_ada_pdfs.py:147-183 | for that first line, the field's value is the stripped, whitespace-collapsed rest of the line, unless it is a flag field whose value ends in `\|` |
| Fields.FlagFieldRecovered | scripts/parse_ms_ada_pdfs.py:150-183 | for a flag field whose value on that line ends in `\|`, the field's value is that value repaired over the following lines, then whitespace-collapsed |
| Fields.ExtractField | scripts/parse_ms_ada_pdfs.py:148-183 | one pass of the rule loop, with its repair loop, gives the field's value: `None` exactly when the rule matches nowhere in the block, and otherwise the normalised value that Fields.FieldRecovered and Fields.FlagFieldRecovered fix for a well-formed field line |
| Fields.RunRules | scripts/parse_ms_ada_pdfs.py:147-149 | after the loop over the rules, a field is stored exactly when it is among the rules run and its rule matched, with its value |
| Fields.ExtractFields | scripts/parse_ms_ada_pdfs.py:147-183 | a field is stored exactly when its rule matched, with its normalised value |
| Parser.RecordsUpToIndex | scripts/parse_ms_ada_pdfs.py:130-189 | record `i` of the list is the record built for heading `i` |
| Parser.ParseBlock | scripts/parse_ms_ada_pdfs.py:130-189 | the loop body builds the record of heading `i`: its block's rule fields with the display-name fallback, its section number and the document name |
| Parser.ParseBlocks | scripts/parse_ms_ada_pdfs.py:130-189 | the loop appends the records of all headings, in order |
| Parser.ParseAttributeBlocks | scripts/parse_ms_ada_pdfs.py:123-191 | `parse_attribute_blocks` returns the records of the document's headings |
| Parser.RecordsIndex | scripts/parse_ms_ada_pdfs.py:128-189 | there is one record per heading, and record `i` belongs to heading `i` |
| Parser.RecordsFollowHeadings | scripts/parse_ms_ada_pdfs.py:128-144 | one record per heading, in document order, each with its heading's section number and the document name |
| Parser.NoHeadingsNoRecords | scripts/parse_ms_ada_pdfs.py:128-191 | a document without headings gives no records |
| Parser.RecordAtFields | scripts/parse_ms_ada_pdfs.py:144-187 | every field but the display name is exactly what its rule gives for the block (so a field whose rule does not match stays `None`); the display name is the extracted one when that is non-empty, else the stripped heading text when that is non-empty, else the extracted one |
| Parser.RecordFields | scripts/parse_ms_ada_pdfs.py:144-187 | the same, for record `i` of a document |
| Parser.RecordAtClean | scripts/parse_ms_ada_pdfs.py:181-187 | every stored value has no outer whitespace, and a value written by a rule is fully normalised |
| Parser.RecordValuesClean | scripts/parse_ms_ada_pdfs.py:181-187 | the same, for record `i` of a document |
| Parser.ParsePdfFile | scripts/parse_ms_ada_pdfs.py:193-204 | an empty text gives no records; otherwise the records of its blocks |
| Parser.CanonicalIdempotent | scripts/parse_ms_ada_pdfs.py:222-223 | canonicalising a key twice gives what canonicalising once gives |
| Parser.KeyOfSpec | scripts/parse_ms_ada_pdfs.py:219-223 | a record gets a key exactly when its GUID or display name is non-empty; the key is the canonical GUID when there is a GUID; every key is non-empty and canonical |
| Parser.ConsolidateKeys | scripts/parse_ms_ada_pdfs.py:217-224 | a key is in the table exactly when some record has it |
| Parser.ConsolidateLastWins | scripts/parse_ms_ada_pdfs.py:224 | the entry under a key is the last record with that key, whole |
| Parser.ConsolidateKeysCanonical | scripts/parse_ms_ada_pdfs.py:219-224 | every key of the table is non-empty and canonical |
| Parser.FileRecord | scripts/parse_ms_ada_pdfs.py:218-224 | filing one record: a record without a key leaves the table as it is; otherwise it is stored under its key |
| Parser.FileRecords | scripts/parse_ms_ada_pdfs.py:217-224 | filing the records of one document in a table built from earlier records gives the table of all of them |
| Parser.ParseMultiplePdfs | scripts/parse_ms_ada_pdfs.py:206-226 | the table is the consolidation of the records of all present documents, in order |
| Export.MappedFieldsExact | scripts/parse_ms_ada_pdfs.py:240-255 | the field mapping lists exactly the fourteen fields other than the display name and the GUID, each once |
| Export.FieldOfLabel | scripts/parse_ms_ada_pdfs.py:240-255 | the field an enhanced key names, if any, has that key as its label |
| Export.LabelInverse | scripts/parse_ms_ada_pdfs.py:240-255 | every field's label leads back to the field |
| Export.LabelInjective | scripts/parse_ms_ada_pdfs.py:240-255 | distinct fields have distinct labels |
| Export.Coerce | scripts/parse_ms_ada_pdfs.py:259-283 | a boolean field becomes `true`/`false` exactly for `"TRUE"`/`"FALSE"`; an integer field becomes the integer exactly when it parses as one; every other value stays the same string; nothing becomes `null` |
| Export.CoerceRoundTrip | scripts/parse_ms_ada_pdfs.py:259-283 | every coerced value is well typed for its field, where an integer has at most 4300 digits, and every well-typed value is the coercion of its text |
| Export.AddField | scripts/parse_ms_ada_pdfs.py:258-283 | a value that is neither `None` nor empty is stored, coerced, under its label; otherwise the entry is unchanged |
| Export.EntryFromName | scripts/parse_ms_ada_pdfs.py:235-237 | `ldapDisplayName` is in every entry, with the record's display name (or `null`) |
| Export.EntryFromFields | scripts/parse_ms_ada_pdfs.py:257-283 | a mapped field's label is in the entry exactly when the field was handled and its value is non-empty, with the coerced value |
| Export.EntryFromKeys | scripts/parse_ms_ada_pdfs.py:235-255 | every key of an entry is `ldapDisplayName` or the label of a mapped field |
| Export.EnhancedEntryShape | scripts/parse_ms_ada_pdfs.py:234-285 | the enhanced entry always has `ldapDisplayName`, never `schemaIdGuid`, has each other mapped field exactly when it is non-empty, with its coerced value, and has no other keys |
| Export.BuildEntry | scripts/parse_ms_ada_pdfs.py:235-283 | the loop over the field mapping builds the entry |
| Export.ExportEnhanced | scripts/parse_ms_ada_pdfs.py:232-285 | the enhanced schema has the table's keys, each with the enhanced entry of its record |
| Export.FieldOfPyName | scripts/parse_ms_ada_pdfs.py:28-43 | the field a raw key names, if any, has that key as its attribute name |
| Export.PyNameInverse | scripts/parse_ms_ada_pdfs.py:28-43 | every field's attribute name leads back to the field |
| Export.PyNameInjective | scripts/parse_ms_ada_pdfs.py:28-43 | distinct fields have distinct attribute names |
| Export.PyNameNotSource | scripts/parse_ms_ada_pdfs.py:28-45 | no field's attribute name starts with `source_` |
| Export.Clean | scripts/parse_ms_ada_pdfs.py:329-333 | the cleaned dictionary has no key starting with `source_` |
| Export.CleanSkipsSource | scripts/parse_ms_ada_pdfs.py:332 | an item whose name starts with `source_` is dropped |
| Export.CleanFieldItems | scripts/parse_ms_ada_pdfs.py:327-333 | cleaning the items of some fields keeps exactly those that are set, under their names, with their values |
| Export.RawEntryExact | scripts/parse_ms_ada_pdfs.py:326-334 | the raw entry has exactly the record's non-`None` fields, under their attribute names, with unchanged values, no other keys, and no `source_*` key |
| Export.ExportRaw | scripts/parse_ms_ada_pdfs.py:324-334 | the raw export has the table's keys, each with the raw entry of its record |
| Cli.Find | src/ad_schema_tool/cli.py:167 | `d.get(k)` finds a value exactly when the key is present, and the value is that key's |
| Cli.NameOf | src/ad_schema_tool/cli.py:167-169 | the name is the `ldapDisplayName` value when the key exists, else the `cn` value when that exists, else `"Unknown-" + guid` |
| Cli.LoadSchemaMappings | src/ad_schema_tool/cli.py:165-172 | the mapping has the schema's keys in its order, each with its name by the fallback chain |
| Cli.LoadAfterExport | src/ad_schema_tool/cli.py:167-169 | loading an exported entry gives the record's display name back (`null` when it had none) |
| Cli.LookupGuid | src/ad_schema_tool/cli.py:183-184 | a GUID is found exactly when it maps to a truthy name, and the answer is that name |
| Cli.ReverseMapDomain | src/ad_schema_tool/cli.py:201 | a name is in the reverse mapping exactly when some GUID has it |
| Cli.ReverseMapLast | src/ad_schema_tool/cli.py:201 | the reverse mapping gives, for each name, the last GUID in iteration order that has it |
| Cli.LookupNameSpec | src/ad_schema_tool/cli.py:201-203 | a name is found exactly when the last GUID with that name is non-empty, and that GUID is the answer; a name no GUID has is not found |
| Cli.Matches | src/ad_schema_tool/cli.py:223-225 | the comprehension fails exactly when some name is not a string; otherwise it holds exactly the items whose lowercased name contains the pattern |
| Cli.SearchPatternSpec | src/ad_schema_tool/cli.py:222-229 | the search fails exactly when some name is not a string; otherwise its result holds exactly the items whose lowercased name contains the lowercased pattern, permuted from the comprehension, in ascending name order, stable for equal names |
| Cli.NextMatch | src/ad_schema_tool/cli.py:244 | the next case-insensitive occurrence of the pattern is the leftmost one from the position on |
| Cli.Occurrences | src/ad_schema_tool/cli.py:244 | the `finditer` starts are case-insensitive occurrences inside the name, in order, none starting inside the previous one |
| Cli.OccurrencesLeftmost | src/ad_schema_tool/cli.py:244 | no occurrence is missed: each is a reported start or lies inside a reported match |
| Cli.Highlight | src/ad_schema_tool/cli.py:246-270 | the pieces join to exactly the name; the matched pieces start at the `finditer` starts and equal the pattern up to case; no plain piece is empty, and no two plain pieces are neighbours |
| Cli.ReadGuids | src/ad_schema_tool/cli.py:317-323 | a file's GUID set holds exactly its stripped lines that are non-empty and do not start with `#` |
| Cli.GuidSetRoundTrip | src/ad_schema_tool/cli.py:317-323 | a file that lists a GUID set, one per line, reads back as the same set |
| Cli.InAllSpec | src/ad_schema_tool/cli.py:343-345 | a GUID is in the intersection exactly when every set holds it |
| Cli.Intersect | src/ad_schema_tool/cli.py:343-345 | the intersection loop computes the GUIDs that every set holds |
| Cli.SortedElements | src/ad_schema_tool/cli.py:358 | `sorted(intersection)` is strictly ascending and holds exactly the set's elements |
| Cli.FirstMissing | src/ad_schema_tool/cli.py:314-332 | the first file that cannot be read, if any |
| Cli.ReadFiles | src/ad_schema_tool/cli.py:314-340 | reading fails at the first missing file; otherwise it gives each file's GUID set, in order |
| Cli.OutputLines | src/ad_schema_tool/cli.py:358-366 | one output line per GUID, in order, annotated with its mapped name or `"Unknown"` when annotation is on |
| Cli.IntersectFiles | src/ad_schema_tool/cli.py:303-366 | fewer than two files is an error; a missing file is an error; otherwise the output lists exactly the GUIDs in every file, in strictly ascending order, each annotated when asked |

## Left out

- Text extraction from PDF files through PyMuPDF, and its swallowed exception: a document is given as its name, whether it exists, and its text, where the empty text stands for a failed extraction.
- Reading and writing files, `json.load`, `json.dump` with `sort_keys`, and `write_text`: the model works on the in-memory dictionaries these would read or write. A GUID file is given as its lines, and a file that cannot be opened as `None`.
- All console output: progress messages, statistics, field coverage percentages, example entries, colours, `supports_color`, `colorize` and the `_PLAIN_OUTPUT` switch. Cli.Highlight returns the plain and matched pieces that the colour branch would colour, not coloured text.
- `argparse`, the `main` functions and the exits: a `sys.exit(1)` failure is a `Failure` result.
- Cli.IntersectFiles: when the intersection is empty, `intersect_files` returns before its output step. With an output file it prints nothing and writes no file, not even the header line. Without one it prints a message. The model gives an empty output for both; it never gives one for a non-empty intersection.
- Cli.LoadSchemaMappings: the loaded schema is a `PyDict<string, map<string, Json>>`, and `Json` holds only `null`, booleans, integers and strings. Floats, arrays and nested objects are not representable. Neither is an entry that is not an object, for which `attr_data.get` raises an AttributeError.
- Text.IsSpace follows Python's whitespace set. Text.IsDigit accepts only ASCII digits, while Python's `\d` also accepts other Unicode decimal digits.
- Text.Lower lowercases only ASCII letters, while Python's `str.lower()` covers all of Unicode.
- Text.Fold covers ASCII letters and the four non-ASCII characters that `re.IGNORECASE` folds onto `i`, `s` and `k`. It leaves out the other Unicode case pairs.
- Text.ParseInt accepts optional outer whitespace, an optional sign and at most 4300 ASCII digits. It leaves out the rest of Python's `int()` grammar: underscores and non-ASCII digits.
- Text.ParseInt fixes the digit limit at 4300, the default of Python 3.11 and later and of the security releases of 3.7 to 3.10. It does not model other limits set through `sys.set_int_max_str_digits` or `PYTHONINTMAXSTRDIGITS`, and it does not model older Pythons, which have no limit.
- Parser.Consolidate keeps the table as a Dafny `map`, so the table's insertion order is not modelled. That order is visible only in the raw JSON text, which is left out.
- Cli.ReverseMapLast: Python's dictionary keys treat `True` as `1` and `False` as `0`, so non-string names such as these share one reverse-mapping entry. The model keeps them apart. This cannot change a lookup, because Cli.LookupName looks up only string names.
- Parser.RecordAtFields: the fallback display name is the stripped heading text, as in the source. Unlike an extracted value, it is not whitespace-collapsed and may contain runs of whitespace. Parser.RecordAtClean therefore states full normalisation only for values written by a rule.
- Cli.SearchPatternSpec: a mapping value that is not a string makes Python raise an AttributeError. The model returns a failure.
