/**
 * Block segmentation of the document text (scripts/parse_ms_ada_pdfs.py,
 * `parse_attribute_blocks`): the attribute headings found by
 * `re.finditer(r"^(\d+\.\d+)\s+Attribute\s+(.+)$", text, re.MULTILINE)`,
 * and the block of text that belongs to each heading.
 *
 * The regular expression is written out as a matcher. Its two `\s+` may run
 * across line breaks, as they do in Python, and the second one gives back
 * characters the way Python's backtracking does when the heading is
 * followed by nothing but whitespace up to the end of the text.
 */
module Headers {
  import opened Common
  import opened Text

  /** The size of the window taken for the last block, which has no following heading. */
  const LastBlockWindow: nat := 2000

  /**
   * One heading match: where it starts, group 1 (the section number),
   * group 2 (the raw heading text) and where the match ends.
   */
  datatype Header = Header(start: nat, section: string, heading: string, end: nat)

  /** `^` under `re.MULTILINE`. */
  predicate AtLineStart(s: string, p: nat) {
    p == 0 || (p <= |s| && s[p - 1] == '\n')
  }

  function Min(a: nat, b: nat): nat {
    if a <= b then a else b
  }

  /**
   * `\s{min,}(.+)$` from position `q`, as Python matches it: the span of
   * `(.+)`. The whitespace is taken as far as it can go while leaving a
   * first character for `(.+)` that is not a line break; `(.+)` then runs to
   * the end of its line.
   */
  function RestOfLine(s: string, q: nat, min: nat): (g: Option<(nat, nat)>)
    requires q <= |s|
    ensures g.Some? ==>
      && q + min <= g.value.0 < g.value.1 <= |s|
      && AllSpace(s[q..g.value.0]) && s[g.value.0] != '\n'
      && g.value.1 == LineEnd(s, g.value.0)
      && (forall j :: g.value.0 < j < |s| && AllSpace(s[q..j]) ==> s[j] == '\n')
    ensures g.None? ==>
      forall j :: q + min <= j < |s| && AllSpace(s[q..j]) ==> s[j] == '\n'
  {
    var r := SpaceEnd(s, q);
    AllSpaceUpTo(s, q, r);
    if r - q < min then None
    else if r < |s| then Some((r, LineEnd(s, r)))
    else
      match LastNonNewline(s, q + min, |s|)
      case None => None
      case Some(k) => Some((k, LineEnd(s, k)))
  }

  /** The stretches of whitespace starting at `q` are exactly those that end by the end of its maximal run. */
  lemma AllSpaceUpTo(s: string, q: nat, r: nat)
    requires q <= r <= |s| && r == SpaceEnd(s, q)
    ensures forall j :: q <= j <= |s| ==> (AllSpace(s[q..j]) <==> j <= r)
  {
    forall j | q <= j <= |s| ensures AllSpace(s[q..j]) <==> j <= r {
      if j > r {
        assert s[q..j][r - q] == s[r];
      }
    }
  }

  /** `(\d+\.\d+)` at `p`: where group 1 ends. */
  function SectionEnd(s: string, p: nat): (b: Option<nat>)
    requires p <= |s|
    ensures b.Some? ==> p < b.value <= |s| && IsSectionNumber(s[p..b.value])
  {
    var a := DigitEnd(s, p);
    if a == p || a == |s| || s[a] != '.' then None
    else
      var b := DigitEnd(s, a + 1);
      if b == a + 1 then None
      else
        var t := s[p..b];
        assert t[a - p] == '.';
        assert AllDigits(t[..a - p]) by { assert t[..a - p] == s[p..a]; }
        assert AllDigits(t[a - p + 1..]) by { assert t[a - p + 1..] == s[a + 1..b]; }
        Some(b)
  }

  /** `\s+Attribute\s+(.+)$` from `b`: the span of group 2. */
  function HeadingSpan(s: string, b: nat): (g: Option<(nat, nat)>)
    requires b <= |s|
    ensures g.Some? ==>
      && b < g.value.0 < g.value.1 <= |s|
      && g.value.1 == LineEnd(s, g.value.0)
  {
    var w := SpaceEnd(s, b);
    if w == b || !StartsWith(s[w..], "Attribute") then None
    else RestOfLine(s, w + 9, 1)
  }

  /**
   * The heading regular expression tried at position `p`: digits, `.`,
   * digits, whitespace, the word `Attribute`, whitespace, and the rest of
   * the line as the label.
   */
  function MatchHeaderAt(s: string, p: nat): (h: Option<Header>)
    requires p <= |s|
    ensures h.Some? ==> h.value.start == p < h.value.end <= |s|
  {
    if !AtLineStart(s, p) then None
    else
      match SectionEnd(s, p)
      case None => None
      case Some(b) =>
        match HeadingSpan(s, b)
        case None => None
        case Some((g, e)) => Some(Header(p, s[p..b], s[g..e], e))
  }

  /**
   * What a heading match consists of: it starts a line, its section number
   * is a prefix of the text there, and its heading text is a non-empty
   * stretch of one line that runs to the end of that line.
   */
  lemma HeaderShape(s: string, p: nat)
    requires p <= |s| && MatchHeaderAt(s, p).Some?
    ensures var h := MatchHeaderAt(s, p).value;
      && AtLineStart(s, p)
      && IsSectionNumber(h.section)
      && StartsWith(s[p..], h.section)
      && h.heading != [] && '\n' !in h.heading
      && h.heading == s[h.end - |h.heading|..h.end]
      && (h.end == |s| || s[h.end] == '\n')
  {
    var b := SectionEnd(s, p).value;
    HeadingSpanShape(s, b);
    assert s[p..][..b - p] == s[p..b];
  }

  /** Group 2 of a heading is a non-empty stretch of one line that runs to the end of that line. */
  lemma HeadingSpanShape(s: string, b: nat)
    requires b <= |s| && HeadingSpan(s, b).Some?
    ensures var (g, e) := HeadingSpan(s, b).value;
      g < e <= |s| && '\n' !in s[g..e] && (e == |s| || s[e] == '\n')
  {
    var (g, e) := HeadingSpan(s, b).value;
    assert forall k :: g <= k < e ==> s[k] != '\n';
    assert forall k :: 0 <= k < e - g ==> s[g..e][k] == s[g + k];
  }

  /**
   * A well-formed heading line is matched: at a line start, digits up to
   * `a`, a dot, digits up to `b`, whitespace up to `w`, the word
   * `Attribute`, whitespace, and a first label character at `j`; then
   * group 1 is the section number `s[p..b]` and group 2 runs from `j` to
   * the end of its line.
   */
  lemma HeaderRecovered(s: string, p: nat, a: nat, b: nat, w: nat, j: nat)
    requires AtLineStart(s, p)
    requires p < a < |s| && AllDigits(s[p..a]) && s[a] == '.'
    requires a + 1 < b < w < |s| && AllDigits(s[a + 1..b]) && AllSpace(s[b..w])
    requires StartsWith(s[w..], "Attribute")
    requires w + 9 < j < |s| && AllSpace(s[w + 9..j]) && !IsSpace(s[j])
    ensures MatchHeaderAt(s, p) == Some(Header(p, s[p..b], s[j..LineEnd(s, j)], LineEnd(s, j)))
  {
    assert s[b..w][0] == s[b];
    SectionEndAt(s, p, a, b);
    assert s[w..][0] == s[w];
    SpaceEndAt(s, b, w);
    RestOfLineAt(s, w + 9, 1, j);
    HeadingSpanAt(s, b, w, j);
  }

  /** Group 2 starts at `j` when `Attribute` follows the whitespace after the section number and `\s+(.+)$` after it starts at `j`. */
  lemma HeadingSpanAt(s: string, b: nat, w: nat, j: nat)
    requires b < w <= |s| && SpaceEnd(s, b) == w && StartsWith(s[w..], "Attribute")
    requires w + 9 <= |s| && j < |s| && RestOfLine(s, w + 9, 1) == Some((j, LineEnd(s, j)))
    ensures HeadingSpan(s, b) == Some((j, LineEnd(s, j)))
  {
  }

  /** `(\d+\.\d+)` at `p` ends at `b` when `s[p..a]` and `s[a + 1..b]` are digits, `s[a]` is a dot and `s[b]` is no digit. */
  lemma SectionEndAt(s: string, p: nat, a: nat, b: nat)
    requires p < a < |s| && AllDigits(s[p..a]) && s[a] == '.'
    requires a + 1 < b < |s| && AllDigits(s[a + 1..b]) && !IsDigit(s[b])
    ensures SectionEnd(s, p) == Some(b)
  {
    DigitEndAt(s, p, a);
    DigitEndAt(s, a + 1, b);
  }

  /** `\s{min,}(.+)$` from `q` captures from `j` when `s[q..j]` is at least `min` whitespace characters and `s[j]` is not whitespace. */
  lemma RestOfLineAt(s: string, q: nat, min: nat, j: nat)
    requires q + min <= j < |s| && AllSpace(s[q..j]) && !IsSpace(s[j])
    ensures RestOfLine(s, q, min) == Some((j, LineEnd(s, j)))
  {
    SpaceEndAt(s, q, j);
  }

  /** The maximal run of digits from `p` ends at `a` when `s[p..a]` is digits and `s[a]` is not one. */
  lemma DigitEndAt(s: string, p: nat, a: nat)
    requires p <= a < |s| && AllDigits(s[p..a]) && !IsDigit(s[a])
    ensures DigitEnd(s, p) == a
  {
    assert forall k :: p <= k < a ==> s[p..a][k - p] == s[k];
  }

  /** The maximal run of whitespace from `p` ends at `a` when `s[p..a]` is whitespace and `s[a]` is not. */
  lemma SpaceEndAt(s: string, p: nat, a: nat)
    requires p <= a < |s| && AllSpace(s[p..a]) && !IsSpace(s[a])
    ensures SpaceEnd(s, p) == a
  {
    assert forall k :: p <= k < a ==> s[p..a][k - p] == s[k];
  }

  /** Group 1 of the heading: `\d+\.\d+`. */
  predicate IsSectionNumber(t: string) {
    exists k :: 0 < k < |t| - 1 && t[k] == '.' && AllDigits(t[..k]) && AllDigits(t[k + 1..])
  }

  /**
   * A matcher for positions `0..n`: a match found at `p` starts at `p` and
   * ends after it, within `n`.
   */
  ghost predicate ValidMatcher(m: nat -> Option<Header>, n: nat) {
    forall p: nat :: p <= n && m(p).Some? ==> m(p).value.start == p < m(p).value.end <= n
  }

  /** `finditer`: from `from`, try each position; after a match, go on from its end. */
  function FindAll(m: nat -> Option<Header>, n: nat, from: nat): seq<Header>
    requires from <= n && ValidMatcher(m, n)
    decreases n - from
  {
    match m(from)
    case Some(h) => [h] + FindAll(m, n, h.end)
    case None => if from == n then [] else FindAll(m, n, from + 1)
  }

  /** No match starts in `[lo, hi)`. */
  ghost predicate NoMatchIn(m: nat -> Option<Header>, n: nat, lo: nat, hi: nat) {
    forall p: nat :: lo <= p < hi && p <= n ==> m(p).None?
  }

  /** Every element of `hs` is the match at its own start, at or after `from`. */
  ghost predicate AllMatches(m: nat -> Option<Header>, n: nat, from: nat, hs: seq<Header>) {
    forall i :: 0 <= i < |hs| ==> from <= hs[i].start <= n && m(hs[i].start) == Some(hs[i])
  }

  /** Each element of `hs` starts at or after the end of the one before. */
  ghost predicate NonOverlapping(hs: seq<Header>) {
    forall i :: 0 <= i < |hs| - 1 ==> hs[i].end <= hs[i + 1].start
  }

  /** Where the gap after element `i` of a scan ends: at the next element, or past the end. */
  function GapEnd(hs: seq<Header>, i: nat, n: nat): nat {
    if i + 1 < |hs| then hs[i + 1].start else n + 1
  }

  /** No match starts in a gap after an element of `hs`. */
  ghost predicate NoMatchBetween(m: nat -> Option<Header>, n: nat, hs: seq<Header>) {
    forall i :: 0 <= i < |hs| ==> NoMatchIn(m, n, hs[i].end, GapEnd(hs, i, n))
  }

  /** No match starts before the first element of `hs`, nor in a gap after any element. */
  ghost predicate NoMatchInGaps(m: nat -> Option<Header>, n: nat, from: nat, hs: seq<Header>) {
    NoMatchIn(m, n, from, if hs == [] then n + 1 else hs[0].start) && NoMatchBetween(m, n, hs)
  }

  /**
   * `hs` is the leftmost, non-overlapping scan of positions `from..n`: every
   * element is the match at its start, each starts at or after the end of
   * its predecessor, and no match starts in any gap the scan skipped.
   */
  ghost predicate IsScan(m: nat -> Option<Header>, n: nat, from: nat, hs: seq<Header>) {
    AllMatches(m, n, from, hs) && NonOverlapping(hs) && NoMatchInGaps(m, n, from, hs)
  }

  /** `finditer` yields exactly the leftmost non-overlapping matches, in order. */
  lemma FindAllIsScan(m: nat -> Option<Header>, n: nat, from: nat)
    requires from <= n && ValidMatcher(m, n)
    ensures IsScan(m, n, from, FindAll(m, n, from))
  {
    FindAllMatches(m, n, from);
    FindAllOrdered(m, n, from);
    FindAllGaps(m, n, from);
  }

  /** Every element of the scan is the match at its own start. */
  lemma {:induction false} FindAllMatches(m: nat -> Option<Header>, n: nat, from: nat)
    requires from <= n && ValidMatcher(m, n)
    ensures AllMatches(m, n, from, FindAll(m, n, from))
    decreases n - from
  {
    var hs := FindAll(m, n, from);
    match m(from)
    case Some(h) =>
      FindAllMatches(m, n, h.end);
      var tl := FindAll(m, n, h.end);
      assert hs == [h] + tl;
      forall i | 0 <= i < |hs|
        ensures from <= hs[i].start <= n && m(hs[i].start) == Some(hs[i])
      {
        if i > 0 { assert hs[i] == tl[i - 1]; }
      }
    case None =>
      if from < n {
        FindAllMatches(m, n, from + 1);
        assert hs == FindAll(m, n, from + 1);
      }
  }

  /** Each element of the scan starts at or after the end of the one before. */
  lemma {:induction false} FindAllOrdered(m: nat -> Option<Header>, n: nat, from: nat)
    requires from <= n && ValidMatcher(m, n)
    ensures NonOverlapping(FindAll(m, n, from))
    decreases n - from
  {
    var hs := FindAll(m, n, from);
    match m(from)
    case Some(h) =>
      FindAllOrdered(m, n, h.end);
      FindAllMatches(m, n, h.end);
      var tl := FindAll(m, n, h.end);
      assert hs == [h] + tl;
      forall i | 0 <= i < |hs| - 1 ensures hs[i].end <= hs[i + 1].start {
        if i > 0 { assert hs[i] == tl[i - 1] && hs[i + 1] == tl[i]; }
        else { assert hs[1] == tl[0]; }
      }
    case None =>
      if from < n {
        FindAllOrdered(m, n, from + 1);
        assert hs == FindAll(m, n, from + 1);
      }
  }

  /** No match starts in a gap the scan skipped: before the first element, or after any element's end. */
  lemma {:induction false} FindAllGaps(m: nat -> Option<Header>, n: nat, from: nat)
    requires from <= n && ValidMatcher(m, n)
    ensures NoMatchInGaps(m, n, from, FindAll(m, n, from))
    decreases n - from
  {
    var hs := FindAll(m, n, from);
    match m(from)
    case Some(h) =>
      FindAllGaps(m, n, h.end);
      var tl := FindAll(m, n, h.end);
      assert hs == [h] + tl;
      assert NoMatchIn(m, n, h.end, if tl == [] then n + 1 else tl[0].start);
      assert NoMatchBetween(m, n, tl);
      forall i | 0 <= i < |hs| ensures NoMatchIn(m, n, hs[i].end, GapEnd(hs, i, n)) {
        if i > 0 {
          assert hs[i] == tl[i - 1];
          assert NoMatchIn(m, n, tl[i - 1].end, GapEnd(tl, i - 1, n));
          assert GapEnd(hs, i, n) == GapEnd(tl, i - 1, n);
        } else if |tl| > 0 {
          assert hs[1] == tl[0];
        }
      }
      assert NoMatchBetween(m, n, hs);
    case None =>
      if from < n {
        FindAllGaps(m, n, from + 1);
        assert hs == FindAll(m, n, from + 1);
        assert NoMatchBetween(m, n, hs);
      }
  }

  /** The heading matcher over the whole text. */
  function HeaderMatcher(s: string): (m: nat -> Option<Header>)
    ensures ValidMatcher(m, |s|)
  {
    (p: nat) => if p <= |s| then MatchHeaderAt(s, p) else None
  }

  /** The headings of a whole document, which start in ascending order. */
  function Headings(text: string): (hs: seq<Header>)
    ensures Ascending(text, hs)
  {
    FindAllIsScan(HeaderMatcher(text), |text|, 0);
    FindAll(HeaderMatcher(text), |text|, 0)
  }

  /** Headings start in strictly increasing order, within the text. */
  lemma HeadingsOrdered(text: string)
    ensures var hs := Headings(text);
      && (forall i :: 0 <= i < |hs| ==> hs[i].start < hs[i].end <= |text|)
      && (forall i, j :: 0 <= i < j < |hs| ==> hs[i].end <= hs[j].start)
  {
    var m := HeaderMatcher(text);
    FindAllMatches(m, |text|, 0);
    FindAllOrdered(m, |text|, 0);
    ScanBounded(m, |text|, 0, Headings(text));
    ScanOrdered(Headings(text));
  }

  /** The elements of a scan lie inside `0..n` and are not empty. */
  lemma ScanBounded(m: nat -> Option<Header>, n: nat, from: nat, hs: seq<Header>)
    requires ValidMatcher(m, n) && AllMatches(m, n, from, hs)
    ensures forall i :: 0 <= i < |hs| ==> hs[i].start < hs[i].end <= n
  {
    forall i | 0 <= i < |hs| ensures hs[i].start < hs[i].end <= n {
      var p := hs[i].start;
      assert m(p) == Some(hs[i]);
    }
  }

  /** Non-empty elements that do not overlap their successors do not overlap any later element. */
  lemma ScanOrdered(hs: seq<Header>)
    requires forall k :: 0 <= k < |hs| ==> hs[k].start < hs[k].end
    requires NonOverlapping(hs)
    ensures forall i, j :: 0 <= i < j < |hs| ==> hs[i].end <= hs[j].start
  {
    forall i, j | 0 <= i < j < |hs| ensures hs[i].end <= hs[j].start {
      OrderedStep(hs, i, j);
    }
  }

  lemma {:induction false} OrderedStep(hs: seq<Header>, i: nat, j: nat)
    requires i < j < |hs|
    requires forall k :: 0 <= k < |hs| ==> hs[k].start < hs[k].end
    requires forall k :: 0 <= k < |hs| - 1 ==> hs[k].end <= hs[k + 1].start
    ensures hs[i].end <= hs[j].start
    decreases j - i
  {
    if j > i + 1 {
      OrderedStep(hs, i + 1, j);
    }
  }

  /** The starts of the given headings are ascending and inside the text: the shape `Block` needs. */
  ghost predicate Ascending(text: string, hs: seq<Header>) {
    && (forall i :: 0 <= i < |hs| ==> hs[i].start <= |text|)
    && (forall i :: 0 <= i < |hs| - 1 ==> hs[i].start <= hs[i + 1].start)
  }

  /**
   * The text of block `i`: from its heading to the next heading, or, for
   * the last heading, a window of `LastBlockWindow` characters cut short by
   * the end of the text (Python's slice `text[start:start + 2000]`).
   */
  function Block(text: string, hs: seq<Header>, i: nat): string
    requires i < |hs| && Ascending(text, hs)
  {
    var start := hs[i].start;
    if i + 1 < |hs| then text[start..hs[i + 1].start]
    else text[start..Min(start + LastBlockWindow, |text|)]
  }

  /** Block `i` runs to the next heading, or else to the end of the window or of the text. */
  lemma BlockBounds(text: string, hs: seq<Header>, i: nat, block: string)
    requires i < |hs| && Ascending(text, hs)
    requires i + 1 < |hs| ==> block == text[hs[i].start..hs[i + 1].start]
    requires i + 1 >= |hs| ==> block == text[hs[i].start..Min(hs[i].start + LastBlockWindow, |text|)]
    ensures block == Block(text, hs, i)
  {
  }

  /** The blocks before the last one, joined. */
  function JoinedBlocks(text: string, hs: seq<Header>, n: nat): string
    requires n < |hs| && Ascending(text, hs)
  {
    if n == 0 then "" else JoinedBlocks(text, hs, n - 1) + Block(text, hs, n - 1)
  }

  /**
   * Consecutive blocks are contiguous and do not overlap: the blocks before
   * heading `n`, joined, are exactly the text from the first heading to
   * heading `n`.
   */
  lemma {:induction false} BlocksContiguous(text: string, hs: seq<Header>, n: nat)
    requires n < |hs| && Ascending(text, hs)
    ensures hs[0].start <= hs[n].start
    ensures JoinedBlocks(text, hs, n) == text[hs[0].start..hs[n].start]
  {
    if n > 0 {
      BlocksContiguous(text, hs, n - 1);
      var a, b, c := hs[0].start, hs[n - 1].start, hs[n].start;
      assert Block(text, hs, n - 1) == text[b..c];
      SliceSplit(text, a, b, c);
    }
  }

  /** A slice is the two slices it is cut into. */
  lemma SliceSplit(s: string, a: nat, b: nat, c: nat)
    requires a <= b <= c <= |s|
    ensures s[a..c] == s[a..b] + s[b..c]
  {
  }

  /** The last block is the text from its heading, cut to at most `LastBlockWindow` characters. */
  lemma LastBlockWindowed(text: string, hs: seq<Header>)
    requires |hs| > 0 && Ascending(text, hs)
    ensures var b := Block(text, hs, |hs| - 1); var start := hs[|hs| - 1].start;
      && |b| <= LastBlockWindow
      && b == text[start..start + |b|]
      && (|b| == LastBlockWindow || start + |b| == |text|)
  {
  }

  /** A text without any heading match has no blocks. */
  lemma NoHeadingNoBlocks(text: string)
    requires forall p :: 0 <= p <= |text| ==> MatchHeaderAt(text, p).None?
    ensures Headings(text) == []
  {
    FindAllIsScan(HeaderMatcher(text), |text|, 0);
  }

  /** The empty text has no headings. */
  lemma EmptyTextNoHeadings()
    ensures Headings("") == []
  {
  }
}
