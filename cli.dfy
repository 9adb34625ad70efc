/**
 * The lookup and set logic of the command-line tool
 * (src/ad_schema_tool/cli.py), without its printing: turning an enhanced
 * schema file into a GUID-to-name mapping, looking a GUID or a name up,
 * searching names for a pattern (and splitting a name into the pieces the
 * highlighter colours), and intersecting files of GUIDs.
 */
module Cli {
  import opened Common
  import opened Text
  import opened Sorting
  import opened Parser
  import opened Fields
  import opened Export

  // ---------------------------------------------------------------------
  // Dictionaries

  /** No key occurs twice. */
  predicate DistinctKeys<K(==), V>(d: seq<(K, V)>) {
    forall i, j :: 0 <= i < j < |d| ==> d[i].0 != d[j].0
  }

  /** A Python dictionary: its items in insertion order, each key once. */
  type PyDict<K(==), V> = d: seq<(K, V)> | DistinctKeys(d) witness []

  /** `d.get(k)`. */
  function Find<K(==), V>(d: seq<(K, V)>, k: K): (r: Option<V>)
    ensures r.Some? <==> exists i :: 0 <= i < |d| && d[i].0 == k
    ensures r.Some? ==> exists i :: 0 <= i < |d| && d[i] == (k, r.value)
  {
    if d == [] then None
    else if d[0].0 == k then Some(d[0].1)
    else
      var r := Find(d[1..], k);
      assert forall i :: 0 <= i < |d| - 1 ==> d[1..][i] == d[i + 1];
      r
  }

  /** In a dictionary, `get` gives the value stored with the key. */
  lemma FindAt<V>(d: PyDict<string, V>, i: nat)
    requires i < |d|
    ensures Find(d, d[i].0) == Some(d[i].1)
  {
  }

  // ---------------------------------------------------------------------
  // Loading the schema mapping

  /**
   * The name recorded for `guid`: the entry's `ldapDisplayName` (whatever
   * its value, `null` included) if it has one, else its `cn`, else
   * `"Unknown-"` followed by the GUID.
   */
  function NameOf(guid: string, entry: map<string, Json>): (name: Json)
    ensures "ldapDisplayName" in entry ==> name == entry["ldapDisplayName"]
    ensures "ldapDisplayName" !in entry && "cn" in entry ==> name == entry["cn"]
    ensures "ldapDisplayName" !in entry && "cn" !in entry ==> name == JString("Unknown-" + guid)
  {
    if "ldapDisplayName" in entry then entry["ldapDisplayName"]
    else if "cn" in entry then entry["cn"]
    else JString("Unknown-" + guid)
  }

  /**
   * `load_schema_mappings` once the file is parsed: the GUIDs in file
   * order, each with its name.  Every GUID is new to the mapping, so each
   * assignment adds an item at the end.
   */
  method LoadSchemaMappings(data: PyDict<string, map<string, Json>>) returns (mappings: PyDict<string, Json>)
    ensures |mappings| == |data|
    ensures forall i :: 0 <= i < |data| ==> mappings[i] == (data[i].0, NameOf(data[i].0, data[i].1))
  {
    var m: seq<(string, Json)> := [];
    var i := 0;
    while i < |data|
      invariant 0 <= i <= |data|
      invariant |m| == i
      invariant forall j :: 0 <= j < i ==> m[j] == (data[j].0, NameOf(data[j].0, data[j].1))
    {
      var (guid, entry) := data[i];
      m := m + [(guid, NameOf(guid, entry))];
      i := i + 1;
    }
    mappings := m;
  }

  /**
   * An exported schema read back: the name of every entry is the record's
   * display name (`null` when it had none), never the `cn` or the
   * `Unknown-` fallback, since the exporter always writes `ldapDisplayName`.
   */
  lemma LoadAfterExport(guid: string, a: Attribute)
    ensures NameOf(guid, EnhancedEntry(a)) == OptionToJson(Get(a, LdapDisplayName))
  {
    EnhancedEntryShape(a);
  }

  // ---------------------------------------------------------------------
  // Lookups

  /** `lookup_guid`: the name of the GUID when it is present and truthy; otherwise the GUID is not found. */
  function LookupGuid(mappings: PyDict<string, Json>, guid: string): (r: Option<Json>)
    ensures r.Some? <==> exists i :: 0 <= i < |mappings| && mappings[i].0 == guid && JsonTruthy(mappings[i].1)
    ensures r.Some? ==> exists i :: 0 <= i < |mappings| && mappings[i] == (guid, r.value)
  {
    var v := Find(mappings, guid);
    if v.Some? && JsonTruthy(v.value) then v else None
  }

  /** `{v: k for k, v in mappings.items()}`: each name with the last GUID that has it. */
  function ReverseMap(mappings: seq<(string, Json)>): map<Json, string> {
    if mappings == [] then map[]
    else
      var (k, v) := mappings[|mappings| - 1];
      ReverseMap(mappings[..|mappings| - 1])[v := k]
  }

  /** The last item of `d` at or after `i` has a different value than `v`. */
  ghost predicate LastWithValue(d: seq<(string, Json)>, i: int, v: Json) {
    0 <= i < |d| && d[i].1 == v && forall j :: i < j < |d| ==> d[j].1 != v
  }

  /** A name is in the reverse map exactly when some GUID has it. */
  lemma {:induction false} ReverseMapDomain(mappings: seq<(string, Json)>, v: Json)
    ensures v in ReverseMap(mappings) <==> exists i :: 0 <= i < |mappings| && mappings[i].1 == v
  {
    if mappings != [] {
      var init, n := mappings[..|mappings| - 1], |mappings| - 1;
      ReverseMapDomain(init, v);
      if exists i :: 0 <= i < n && init[i].1 == v {
        var i :| 0 <= i < n && init[i].1 == v;
        assert mappings[i].1 == v;
      }
      if exists i :: 0 <= i < |mappings| && mappings[i].1 == v {
        var i :| 0 <= i < |mappings| && mappings[i].1 == v;
        if i < n {
          assert init[i].1 == v;
        }
      }
    }
  }

  /** An item with another value after the last item with `v` leaves it the last one. */
  lemma LastWithValueExtend(d: seq<(string, Json)>, item: (string, Json), i: int, v: Json)
    requires LastWithValue(d, i, v) && item.1 != v
    ensures LastWithValue(d + [item], i, v)
  {
    var e := d + [item];
    forall j | i < j < |e| ensures e[j].1 != v {
      if j < |d| {
        assert e[j] == d[j];
      }
    }
  }

  /** A name in the reverse map maps to the last GUID that has it. */
  lemma {:induction false} ReverseMapLast(mappings: seq<(string, Json)>, v: Json)
    ensures v in ReverseMap(mappings) ==>
      exists i :: LastWithValue(mappings, i, v) && ReverseMap(mappings)[v] == mappings[i].0
  {
    if mappings != [] {
      var init, n := mappings[..|mappings| - 1], |mappings| - 1;
      var item := mappings[n];
      assert ReverseMap(mappings) == ReverseMap(init)[item.1 := item.0];
      if item.1 == v {
        assert LastWithValue(mappings, n, v);
      } else {
        ReverseMapLast(init, v);
        if v in ReverseMap(init) {
          var i :| LastWithValue(init, i, v) && ReverseMap(init)[v] == init[i].0;
          LastWithValueExtend(init, item, i, v);
          assert init + [item] == mappings;
          assert mappings[i] == init[i];
        }
      }
    }
  }

  /** `lookup_name`: the GUID found through the reverse map, if it is non-empty. */
  function LookupName(mappings: PyDict<string, Json>, name: string): Option<string> {
    var reverse := ReverseMap(mappings);
    var v := JString(name);
    if v in reverse && reverse[v] != "" then Some(reverse[v]) else None
  }

  /**
   * A name is found exactly when the last GUID that has it is non-empty,
   * and that GUID is the answer; in particular a name no GUID has is not found.
   */
  lemma LookupNameSpec(mappings: PyDict<string, Json>, name: string)
    ensures LookupName(mappings, name).Some? <==>
      exists i :: LastWithValue(mappings, i, JString(name)) && mappings[i].0 != ""
    ensures forall i :: LastWithValue(mappings, i, JString(name)) && mappings[i].0 != "" ==>
      LookupName(mappings, name) == Some(mappings[i].0)
    ensures (forall i :: 0 <= i < |mappings| ==> mappings[i].1 != JString(name)) ==>
      LookupName(mappings, name).None?
  {
    var v := JString(name);
    ReverseMapDomain(mappings, v);
    ReverseMapLast(mappings, v);
    forall i, j | LastWithValue(mappings, i, v) && LastWithValue(mappings, j, v) ensures i == j {
    }
  }

  // ---------------------------------------------------------------------
  // Search

  datatype CliError = TooFewFiles | FileNotFound(index: nat) | NotAString(guid: string)

  function Second(x: (string, string)): string {
    x.1
  }

  /**
   * The comprehension of `search_pattern` with `p` already lowercased: the
   * items whose lowercased name contains `p`, in mapping order; it fails at
   * the first name that is not a string, where Python's `name.lower()`
   * raises.
   */
  function Matches(mappings: seq<(string, Json)>, p: string): (r: Result<seq<(string, string)>, CliError>)
    ensures r.Failure? <==> exists i :: 0 <= i < |mappings| && !mappings[i].1.JString?
    ensures r.Success? ==> forall x :: x in r.value <==>
      exists i :: 0 <= i < |mappings| && mappings[i] == (x.0, JString(x.1)) && Contains(Lower(x.1), p)
  {
    if mappings == [] then Success([])
    else
      var (guid, name) := mappings[0];
      assert forall i :: 0 <= i < |mappings| - 1 ==> mappings[1..][i] == mappings[i + 1];
      if !name.JString? then Failure(NotAString(guid))
      else
        match Matches(mappings[1..], p)
        case Failure(e) => Failure(e)
        case Success(rest) =>
          Success((if Contains(Lower(name.s), p) then [(guid, name.s)] else []) + rest)
  }

  /** `search_pattern`'s result: the matching items, sorted by name with a stable sort. */
  function SearchPattern(mappings: PyDict<string, Json>, pattern: string): Result<seq<(string, string)>, CliError> {
    match Matches(mappings, Lower(pattern))
    case Failure(e) => Failure(e)
    case Success(ms) => Success(SortBy(ms, Second))
  }

  /**
   * The search fails exactly when some name is not a string.  Otherwise
   * its result holds exactly the items whose lowercased name contains the
   * lowercased pattern, each as often as the comprehension lists it, in
   * ascending name order, with items of equal name in mapping order.
   */
  lemma SearchPatternSpec(mappings: PyDict<string, Json>, pattern: string)
    ensures SearchPattern(mappings, pattern).Failure? <==>
      exists i :: 0 <= i < |mappings| && !mappings[i].1.JString?
    ensures var r := SearchPattern(mappings, pattern); var m := Matches(mappings, Lower(pattern));
      r.Success? ==>
        && (forall x :: x in r.value <==>
             exists i :: 0 <= i < |mappings| && mappings[i] == (x.0, JString(x.1)) && Contains(Lower(x.1), Lower(pattern)))
        && multiset(r.value) == multiset(m.value)
        && SortedBy(r.value, Second)
        && forall v :: WithKey(r.value, Second, v) == WithKey(m.value, Second, v)
  {
    var m := Matches(mappings, Lower(pattern));
    if m.Success? {
      SortByPermutes(m.value, Second);
      SortBySorted(m.value, Second);
      forall v ensures WithKey(SortBy(m.value, Second), Second, v) == WithKey(m.value, Second, v) {
        SortByStable(m.value, Second, v);
      }
      forall x ensures x in SortBy(m.value, Second) <==> x in m.value {
        assert x in multiset(SortBy(m.value, Second)) <==> x in multiset(m.value);
      }
    }
  }

  // ---------------------------------------------------------------------
  // Highlighting

  /** The first position from `from` on where `pattern` occurs in `name`, up to case. */
  function NextMatch(name: string, pattern: string, from: nat): (q: Option<nat>)
    requires from <= |name|
    ensures q.Some? ==> from <= q.value <= |name| && FoldMatchAt(name, q.value, pattern)
    ensures q.Some? ==> forall r :: from <= r < q.value ==> !FoldMatchAt(name, r, pattern)
    ensures q.None? ==> forall r :: from <= r <= |name| ==> !FoldMatchAt(name, r, pattern)
    decreases |name| - from
  {
    if FoldMatchAt(name, from, pattern) then Some(from)
    else if from == |name| then None
    else NextMatch(name, pattern, from + 1)
  }

  /** Where a match starting at `q` ends, and so where the next one may start. */
  function Resume(name: string, pattern: string, q: nat): nat {
    if pattern == [] then q + 1 else q + |pattern|
  }

  /**
   * The starts of `re.finditer(re.escape(pattern), name, re.IGNORECASE)`
   * from `from` on: the leftmost match, then the matches from its end on;
   * after an empty match the search moves on by one character.
   */
  function Occurrences(name: string, pattern: string, from: nat): (occ: seq<nat>)
    requires from <= |name| + 1
    ensures forall i :: 0 <= i < |occ| ==> from <= occ[i] && occ[i] + |pattern| <= |name|
    ensures forall i :: 0 <= i < |occ| ==> FoldMatchAt(name, occ[i], pattern)
    ensures forall i :: 0 <= i < |occ| - 1 ==> Resume(name, pattern, occ[i]) <= occ[i + 1]
    decreases |name| + 1 - from
  {
    if from > |name| then []
    else
      match NextMatch(name, pattern, from)
      case None => []
      case Some(q) =>
        var rest := Occurrences(name, pattern, Resume(name, pattern, q));
        [q] + rest
  }

  /** Position `r` is the start of a reported match or inside one. */
  ghost predicate Covered(occ: seq<nat>, name: string, pattern: string, r: nat) {
    exists i :: 0 <= i < |occ| && occ[i] <= r < Resume(name, pattern, occ[i])
  }

  /** No match is missed: every position where the pattern occurs is a reported start or inside a reported match. */
  lemma {:induction false} OccurrencesLeftmost(name: string, pattern: string, from: nat, r: nat)
    requires from <= |name| + 1 && from <= r <= |name| && FoldMatchAt(name, r, pattern)
    ensures Covered(Occurrences(name, pattern, from), name, pattern, r)
    decreases |name| + 1 - from
  {
    var m := NextMatch(name, pattern, from);
    assert m.Some?;
    var q := m.value;
    assert q <= r;
    var next := Resume(name, pattern, q);
    var occ := Occurrences(name, pattern, from);
    assert occ == [q] + Occurrences(name, pattern, next);
    if r < next {
      assert occ[0] <= r < Resume(name, pattern, occ[0]);
    } else {
      OccurrencesLeftmost(name, pattern, next, r);
      var rest := Occurrences(name, pattern, next);
      var i :| 0 <= i < |rest| && rest[i] <= r < Resume(name, pattern, rest[i]);
      assert occ[i + 1] == rest[i];
    }
  }

  /** A piece of a highlighted name: plain text or a match. */
  datatype Segment = Plain(text: string) | Hit(text: string)

  /** The text of the pieces, joined. */
  function Joined(parts: seq<Segment>): string {
    if parts == [] then "" else Joined(parts[..|parts| - 1]) + parts[|parts| - 1].text
  }

  /** Where in the joined text each match piece starts. */
  function HitStarts(parts: seq<Segment>): seq<nat> {
    if parts == [] then []
    else
      var init := parts[..|parts| - 1];
      HitStarts(init) + (if parts[|parts| - 1].Hit? then [|Joined(init)|] else [])
  }

  /** Adding one piece. */
  lemma AppendPart(parts: seq<Segment>, s: Segment)
    ensures Joined(parts + [s]) == Joined(parts) + s.text
    ensures HitStarts(parts + [s]) == HitStarts(parts) + (if s.Hit? then [|Joined(parts)|] else [])
  {
    assert (parts + [s])[..|parts|] == parts;
  }

  /** The pieces spell `name` up to `upTo`; every match piece is the pattern up to case, and no plain piece is empty. */
  ghost predicate Pieces(name: string, pattern: string, parts: seq<Segment>, upTo: nat) {
    && upTo <= |name|
    && Joined(parts) == name[..upTo]
    && (forall i :: 0 <= i < |parts| && parts[i].Hit? ==> FoldEqual(parts[i].text, pattern))
    && (forall i :: 0 <= i < |parts| && parts[i].Plain? ==> parts[i].text != "")
  }

  /** No two neighbouring pieces are both plain: each gap between matches is one piece. */
  ghost predicate NoPlainRun(parts: seq<Segment>) {
    forall i :: 0 <= i < |parts| - 1 ==> !(parts[i].Plain? && parts[i + 1].Plain?)
  }

  /** The pieces are empty or end with a match, so plain text may follow. */
  ghost predicate AfterHit(parts: seq<Segment>) {
    parts == [] || parts[|parts| - 1].Hit?
  }

  /** Adding the plain text between `lo` and `hi`, after a match or at the start. */
  lemma AddPlain(name: string, pattern: string, parts: seq<Segment>, lo: nat, hi: nat)
    requires lo < hi <= |name| && Pieces(name, pattern, parts, lo)
    requires NoPlainRun(parts) && AfterHit(parts)
    ensures Pieces(name, pattern, parts + [Plain(name[lo..hi])], hi)
    ensures NoPlainRun(parts + [Plain(name[lo..hi])])
    ensures HitStarts(parts + [Plain(name[lo..hi])]) == HitStarts(parts)
  {
    AppendPart(parts, Plain(name[lo..hi]));
    assert name[..lo] + name[lo..hi] == name[..hi];
  }

  /** A match piece never makes two plain pieces neighbours, and the pieces then end with it. */
  lemma HitEndsRun(parts: seq<Segment>, hit: Segment)
    requires hit.Hit? && NoPlainRun(parts)
    ensures NoPlainRun(parts + [hit]) && AfterHit(parts + [hit])
  {
  }

  /** The text of a case-insensitive occurrence equals the pattern up to case. */
  lemma MatchedText(name: string, pattern: string, start: nat)
    requires start + |pattern| <= |name| && FoldMatchAt(name, start, pattern)
    ensures FoldEqual(name[start..start + |pattern|], pattern)
  {
    var text := name[start..start + |pattern|];
    forall k | 0 <= k < |pattern| ensures Fold(text[k]) == Fold(pattern[k]) {
      assert text[k] == name[start + k];
    }
  }

  /** Adding the match that starts at `start`. */
  lemma AddHit(name: string, pattern: string, parts: seq<Segment>, start: nat)
    requires start + |pattern| <= |name| && FoldMatchAt(name, start, pattern)
    requires Pieces(name, pattern, parts, start) && NoPlainRun(parts)
    ensures Pieces(name, pattern, parts + [Hit(name[start..start + |pattern|])], start + |pattern|)
    ensures NoPlainRun(parts + [Hit(name[start..start + |pattern|])])
    ensures AfterHit(parts + [Hit(name[start..start + |pattern|])])
    ensures HitStarts(parts + [Hit(name[start..start + |pattern|])]) == HitStarts(parts) + [start]
  {
    var end := start + |pattern|;
    var hit := Hit(name[start..end]);
    HitEndsRun(parts, hit);
    MatchedText(name, pattern, start);
    AppendPart(parts, hit);
    assert name[..start] + name[start..end] == name[..end];
  }

  /** The plain text between `lo` and `hi`, as one piece when there is any. */
  function Gap(name: string, lo: nat, hi: nat): (r: seq<Segment>)
    requires lo <= hi <= |name|
    ensures |r| <= 1 && (r != [] <==> lo < hi)
  {
    if lo < hi then [Plain(name[lo..hi])] else []
  }

  /** The state between two matches of the highlight loop. */
  ghost predicate Layout(name: string, pattern: string, parts: seq<Segment>, upTo: nat) {
    Pieces(name, pattern, parts, upTo) && NoPlainRun(parts) && AfterHit(parts)
  }

  /** One round of the highlight loop: the gap before the match at `start`, then the match. */
  lemma HighlightStep(name: string, pattern: string, parts: seq<Segment>, lastEnd: nat, start: nat)
    requires lastEnd <= start && start + |pattern| <= |name| && FoldMatchAt(name, start, pattern)
    requires Layout(name, pattern, parts, lastEnd)
    ensures var next := parts + Gap(name, lastEnd, start) + [Hit(name[start..start + |pattern|])];
      Layout(name, pattern, next, start + |pattern|) && HitStarts(next) == HitStarts(parts) + [start]
  {
    if lastEnd < start {
      AddPlain(name, pattern, parts, lastEnd, start);
      AddHit(name, pattern, parts + [Plain(name[lastEnd..start])], start);
    } else {
      assert parts + Gap(name, lastEnd, start) == parts;
      AddHit(name, pattern, parts, start);
    }
  }

  /** The end of the highlight loop: the rest of the name after the last match. */
  lemma HighlightEnd(name: string, pattern: string, parts: seq<Segment>, lastEnd: nat)
    requires lastEnd <= |name| && Layout(name, pattern, parts, lastEnd)
    ensures var last := parts + Gap(name, lastEnd, |name|);
      Pieces(name, pattern, last, |name|) && NoPlainRun(last) && HitStarts(last) == HitStarts(parts)
  {
    if lastEnd < |name| {
      AddPlain(name, pattern, parts, lastEnd, |name|);
    } else {
      assert parts + Gap(name, lastEnd, |name|) == parts;
    }
  }

  /**
   * The highlight loop of `search_pattern`: the text before each match (when
   * there is any), the match itself as it is written in the name, and the
   * rest of the name after the last match (when there is any).
   */
  method Highlight(name: string, pattern: string) returns (parts: seq<Segment>)
    ensures Joined(parts) == name
    ensures HitStarts(parts) == Occurrences(name, pattern, 0)
    ensures forall i :: 0 <= i < |parts| && parts[i].Hit? ==> FoldEqual(parts[i].text, pattern)
    ensures forall i :: 0 <= i < |parts| && parts[i].Plain? ==> parts[i].text != ""
    ensures NoPlainRun(parts)
  {
    var matches := Occurrences(name, pattern, 0);
    parts := [];
    var lastEnd: nat := 0;
    var j := 0;
    while j < |matches|
      invariant 0 <= j <= |matches|
      invariant lastEnd <= |name| && Layout(name, pattern, parts, lastEnd)
      invariant HitStarts(parts) == matches[..j]
      invariant j < |matches| ==> lastEnd <= matches[j]
    {
      var start := matches[j];
      HighlightStep(name, pattern, parts, lastEnd, start);
      parts := parts + Gap(name, lastEnd, start) + [Hit(name[start..start + |pattern|])];
      assert matches[..j + 1] == matches[..j] + [start];
      lastEnd := start + |pattern|;
      j := j + 1;
    }
    HighlightEnd(name, pattern, parts, lastEnd);
    parts := parts + Gap(name, lastEnd, |name|);
    assert matches[..j] == matches;
    assert name[..|name|] == name;
  }

  // ---------------------------------------------------------------------
  // GUID files and their intersection

  /** A stripped line that is kept: not empty and not a comment. */
  predicate Kept(line: string) {
    line != "" && !StartsWith(line, "#")
  }

  /** The GUID set of a file: its stripped lines that are kept. */
  function GuidSet(lines: seq<string>): set<string> {
    set i | 0 <= i < |lines| && Kept(Strip(lines[i])) :: Strip(lines[i])
  }

  /** One more line of the file. */
  lemma GuidSetStep(lines: seq<string>, i: nat)
    requires i < |lines|
    ensures GuidSet(lines[..i + 1])
      == GuidSet(lines[..i]) + (if Kept(Strip(lines[i])) then {Strip(lines[i])} else {})
  {
    var a, b := lines[..i + 1], lines[..i];
    assert forall j :: 0 <= j < i ==> a[j] == b[j];
    assert a[i] == lines[i];
  }

  /** The loop of `intersect_files` that reads one file. */
  method ReadGuids(lines: seq<string>) returns (guids: set<string>)
    ensures guids == GuidSet(lines)
  {
    guids := {};
    var i := 0;
    while i < |lines|
      invariant 0 <= i <= |lines|
      invariant guids == GuidSet(lines[..i])
    {
      var line := Strip(lines[i]);
      GuidSetStep(lines, i);
      if line != "" && !StartsWith(line, "#") {
        guids := guids + {line};
      }
      i := i + 1;
    }
    assert lines[..i] == lines;
  }

  /**
   * The GUIDs of a file are stripped, non-empty and not comments, so a
   * file listing them, one per line in any order, has the same GUID set.
   */
  lemma GuidSetRoundTrip(lines: seq<string>, out: seq<string>)
    requires forall g :: g in out <==> g in GuidSet(lines)
    ensures GuidSet(out) == GuidSet(lines)
  {
    forall g | g in GuidSet(lines) ensures Strip(g) == g {
      var i :| 0 <= i < |lines| && Kept(Strip(lines[i])) && Strip(lines[i]) == g;
      StripOfClean(g);
    }
    forall g | g in GuidSet(lines) ensures g in GuidSet(out) {
      var i :| 0 <= i < |out| && out[i] == g;
    }
  }

  /** The GUIDs in every one of the sets. */
  function InAll(sets: seq<set<string>>): set<string>
    requires |sets| > 0
  {
    if |sets| == 1 then sets[0] else InAll(sets[..|sets| - 1]) * sets[|sets| - 1]
  }

  /** A GUID is common exactly when every set holds it. */
  lemma {:induction false} InAllSpec(sets: seq<set<string>>, g: string)
    requires |sets| > 0
    ensures g in InAll(sets) <==> forall j :: 0 <= j < |sets| ==> g in sets[j]
  {
    if |sets| > 1 {
      var init := sets[..|sets| - 1];
      InAllSpec(init, g);
      assert forall j :: 0 <= j < |init| ==> init[j] == sets[j];
    }
  }

  /** Appending an element not yet present keeps the elements distinct. */
  lemma AppendDistinct(items: seq<string>, x: string)
    requires forall i, j :: 0 <= i < j < |items| ==> items[i] != items[j]
    requires x !in items
    ensures var e := items + [x]; forall i, j :: 0 <= i < j < |e| ==> e[i] != e[j]
  {
    var e := items + [x];
    forall i, j | 0 <= i < j < |e| ensures e[i] != e[j] {
      if j < |items| {
        assert e[i] == items[i] && e[j] == items[j];
      } else {
        assert e[i] == items[i];
      }
    }
  }

  /** `sorted()` of a set of strings: its elements, in strictly ascending order. */
  method SortedElements(s: set<string>) returns (r: seq<string>)
    ensures StrictlySorted(r)
    ensures forall x :: x in r <==> x in s
  {
    var items: seq<string> := [];
    var rest := s;
    while rest != {}
      invariant rest <= s
      invariant forall x :: x in items <==> x in s - rest
      invariant forall i, j :: 0 <= i < j < |items| ==> items[i] != items[j]
      decreases |rest|
    {
      var x :| x in rest;
      AppendDistinct(items, x);
      items := items + [x];
      rest := rest - {x};
    }
    r := SortBy(items, Id);
    SortDistinctStrictly(items);
    SortByPermutes(items, Id);
    forall x ensures x in r <==> x in items {
      assert x in multiset(r) <==> x in multiset(items);
    }
  }

  /** A line of the intersection's output: the GUID alone, or with its mapped name. */
  datatype OutLine = Bare(guid: string) | Annotated(guid: string, name: Json)

  /** The GUIDs of the output lines, in order. */
  function Guids(out: seq<OutLine>): (gs: seq<string>)
    ensures |gs| == |out| && forall i :: 0 <= i < |out| ==> gs[i] == out[i].guid
  {
    if out == [] then [] else Guids(out[..|out| - 1]) + [out[|out| - 1].guid]
  }

  /** The mapped name of a GUID, `"Unknown"` when the mapping does not have it. */
  function NameOrUnknown(mappings: PyDict<string, Json>, guid: string): Json {
    match Find(mappings, guid)
    case Some(n) => n
    case None => JString("Unknown")
  }

  /** The index of the first file that cannot be read, if any. */
  function FirstMissing(files: seq<Option<seq<string>>>): (r: Option<nat>)
    ensures r.Some? ==> r.value < |files| && files[r.value].None? && forall j :: 0 <= j < r.value ==> files[j].Some?
    ensures r.None? ==> forall j :: 0 <= j < |files| ==> files[j].Some?
  {
    if files == [] then None
    else
      match FirstMissing(files[..|files| - 1])
      case Some(i) => Some(i)
      case None => if files[|files| - 1].None? then Some(|files| - 1) else None
  }

  /** The loop of `intersect_files` over the files: the GUID set of each, or the first file that cannot be read. */
  method ReadFiles(files: seq<Option<seq<string>>>) returns (result: Result<seq<set<string>>, CliError>)
    ensures FirstMissing(files).Some? ==> result == Failure(FileNotFound(FirstMissing(files).value))
    ensures FirstMissing(files).None? ==>
      && result.Success? && |result.value| == |files|
      && forall j :: 0 <= j < |files| ==> result.value[j] == GuidSet(files[j].value)
  {
    var sets: seq<set<string>> := [];
    var k := 0;
    while k < |files|
      invariant 0 <= k <= |files|
      invariant |sets| == k
      invariant forall j :: 0 <= j < k ==> files[j].Some? && sets[j] == GuidSet(files[j].value)
    {
      if files[k].None? {
        return Failure(FileNotFound(k));
      }
      var guids := ReadGuids(files[k].value);
      sets := sets + [guids];
      k := k + 1;
    }
    return Success(sets);
  }

  /** The intersection loop of `intersect_files`. */
  method Intersect(sets: seq<set<string>>) returns (intersection: set<string>)
    requires |sets| > 0
    ensures forall g :: g in intersection <==> forall j :: 0 <= j < |sets| ==> g in sets[j]
  {
    intersection := sets[0];
    var n := 1;
    while n < |sets|
      invariant 1 <= n <= |sets|
      invariant intersection == InAll(sets[..n])
    {
      assert sets[..n + 1][..n] == sets[..n];
      intersection := intersection * sets[n];
      n := n + 1;
    }
    assert sets[..n] == sets;
    forall g ensures g in intersection <==> forall j :: 0 <= j < |sets| ==> g in sets[j] {
      InAllSpec(sets, g);
    }
  }

  /** The output loop of `intersect_files`: one line per GUID, annotated when asked. */
  method OutputLines(mappings: PyDict<string, Json>, guids: seq<string>, annotate: bool) returns (out: seq<OutLine>)
    ensures Guids(out) == guids
    ensures forall i :: 0 <= i < |out| ==>
      out[i] == if annotate then Annotated(out[i].guid, NameOrUnknown(mappings, out[i].guid)) else Bare(out[i].guid)
  {
    out := [];
    var i := 0;
    while i < |guids|
      invariant 0 <= i <= |guids|
      invariant |out| == i
      invariant forall j :: 0 <= j < i ==> out[j].guid == guids[j]
      invariant forall j :: 0 <= j < i ==>
        out[j] == if annotate then Annotated(out[j].guid, NameOrUnknown(mappings, out[j].guid)) else Bare(out[j].guid)
    {
      var guid := guids[i];
      if annotate {
        out := out + [Annotated(guid, NameOrUnknown(mappings, guid))];
      } else {
        out := out + [Bare(guid)];
      }
      i := i + 1;
    }
  }

  /**
   * `intersect_files` up to its output: with fewer than two files it fails;
   * a file that cannot be read (`None`) makes it fail at the first such
   * file; otherwise the output lines are the GUIDs found in every file, in
   * ascending order, each with its mapped name when `annotate` is set.
   */
  method IntersectFiles(mappings: PyDict<string, Json>, files: seq<Option<seq<string>>>, annotate: bool)
    returns (result: Result<seq<OutLine>, CliError>)
    ensures |files| < 2 ==> result == Failure(TooFewFiles)
    ensures |files| >= 2 && FirstMissing(files).Some? ==> result == Failure(FileNotFound(FirstMissing(files).value))
    ensures |files| >= 2 && FirstMissing(files).None? ==> result.Success?
    ensures result.Success? ==> var out := result.value;
      && StrictlySorted(Guids(out))
      && (forall g :: g in Guids(out) <==> forall j :: 0 <= j < |files| ==> g in GuidSet(files[j].value))
      && (forall i :: 0 <= i < |out| ==>
           out[i] == if annotate then Annotated(out[i].guid, NameOrUnknown(mappings, out[i].guid)) else Bare(out[i].guid))
  {
    if |files| < 2 {
      return Failure(TooFewFiles);
    }
    var read := ReadFiles(files);
    if read.Failure? {
      return Failure(read.error);
    }
    var sets := read.value;
    var intersection := Intersect(sets);
    if intersection == {} {
      forall g ensures g in Guids([]) <==> forall j :: 0 <= j < |files| ==> g in GuidSet(files[j].value) {
        assert g !in intersection;
      }
      return Success([]);
    }
    var guids := SortedElements(intersection);
    var out := OutputLines(mappings, guids, annotate);
    return Success(out);
  }
}
