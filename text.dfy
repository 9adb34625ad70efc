/**
 * The Python string primitives the parser and the command-line layer rely
 * on, written out over `seq<char>`: the whitespace class shared by `\s`,
 * `str.strip` and `str.isspace`, stripping, `re.sub(r"\s+", " ", ...)`,
 * `str.lower`, the case folding of `re.IGNORECASE`, substring tests,
 * `str.split("\n")`, `str.replace(old, "")` and `int(...)`.
 */
module Text {
  import opened Common

  /** U+00A0, the no-break space the documents use as an indent marker. */
  const Nbsp: char := 0xA0 as char

  /**
   * Python's whitespace: the characters `str.isspace()` accepts, which are
   * also the ones `\s` matches in a `str` pattern and `str.strip()` removes.
   */
  predicate IsSpace(c: char) {
    var n := c as int;
    (9 <= n <= 13) || (28 <= n <= 32) || n == 0x85 || n == 0xA0 || n == 0x1680
    || (0x2000 <= n <= 0x200A) || n == 0x2028 || n == 0x2029 || n == 0x202F
    || n == 0x205F || n == 0x3000
  }

  /** An ASCII decimal digit. */
  predicate IsDigit(c: char) {
    '0' <= c <= '9'
  }

  predicate AllSpace(s: string) {
    forall i :: 0 <= i < |s| ==> IsSpace(s[i])
  }

  predicate AllDigits(s: string) {
    forall i :: 0 <= i < |s| ==> IsDigit(s[i])
  }

  /** Neither the first nor the last character is whitespace. */
  predicate NoOuterSpace(s: string) {
    s == [] || (!IsSpace(s[0]) && !IsSpace(s[|s| - 1]))
  }

  /** No two adjacent characters are both whitespace. */
  predicate NoSpaceRun(s: string) {
    forall i :: 0 <= i < |s| - 1 && IsSpace(s[i]) ==> !IsSpace(s[i + 1])
  }

  /** The only whitespace character left is the plain space. */
  predicate OnlyPlainSpaces(s: string) {
    forall i :: 0 <= i < |s| && IsSpace(s[i]) ==> s[i] == ' '
  }

  /** The shape of a value after whitespace normalisation. */
  predicate Normalized(s: string) {
    NoOuterSpace(s) && NoSpaceRun(s) && OnlyPlainSpaces(s)
  }

  // ---------------------------------------------------------------------
  // Scanning positions

  /** The end of the line that position `i` is on: the next `\n`, or the end. */
  function LineEnd(s: string, i: nat): (e: nat)
    requires i <= |s|
    ensures i <= e <= |s|
    ensures e == |s| || s[e] == '\n'
    ensures forall k :: i <= k < e ==> s[k] != '\n'
    decreases |s| - i
  {
    if i == |s| || s[i] == '\n' then i else LineEnd(s, i + 1)
  }

  /** The end of the maximal run of whitespace that starts at `i`. */
  function SpaceEnd(s: string, i: nat): (e: nat)
    requires i <= |s|
    ensures i <= e <= |s|
    ensures e == |s| || !IsSpace(s[e])
    ensures forall k :: i <= k < e ==> IsSpace(s[k])
    decreases |s| - i
  {
    if i == |s| || !IsSpace(s[i]) then i else SpaceEnd(s, i + 1)
  }

  /** The end of the maximal run of ASCII digits that starts at `i`. */
  function DigitEnd(s: string, i: nat): (e: nat)
    requires i <= |s|
    ensures i <= e <= |s|
    ensures e == |s| || !IsDigit(s[e])
    ensures forall k :: i <= k < e ==> IsDigit(s[k])
    decreases |s| - i
  {
    if i == |s| || !IsDigit(s[i]) then i else DigitEnd(s, i + 1)
  }

  /** The largest index in `[lo, hi)` whose character is not `\n`, if any. */
  function LastNonNewline(s: string, lo: nat, hi: nat): (k: Option<nat>)
    requires hi <= |s|
    ensures k.Some? ==> (lo <= k.value < hi && s[k.value] != '\n'
                         && forall j :: k.value < j < hi ==> s[j] == '\n')
    ensures k.None? ==> forall j :: lo <= j < hi ==> s[j] == '\n'
    decreases hi
  {
    if hi <= lo then None
    else if s[hi - 1] != '\n' then Some(hi - 1)
    else LastNonNewline(s, lo, hi - 1)
  }

  // ---------------------------------------------------------------------
  // Stripping and whitespace normalisation

  /** The end of `s[lo..hi]` once its trailing whitespace is dropped. */
  function TrimEnd(s: string, lo: nat, hi: nat): (e: nat)
    requires lo <= hi <= |s|
    ensures lo <= e <= hi
    ensures e == lo || !IsSpace(s[e - 1])
    ensures forall k :: e <= k < hi ==> IsSpace(s[k])
    decreases hi
  {
    if hi == lo || !IsSpace(s[hi - 1]) then hi else TrimEnd(s, lo, hi - 1)
  }

  /** `str.strip()`: no outer whitespace left, and empty exactly when `s` is all whitespace. */
  function Strip(s: string): (r: string)
    ensures NoOuterSpace(r)
    ensures r == [] <==> AllSpace(s)
    ensures |r| <= |s|
  {
    var a := SpaceEnd(s, 0);
    var b := TrimEnd(s, a, |s|);
    assert a < |s| ==> b > a;
    s[a..b]
  }

  /** Stripping leaves a string that has no outer whitespace unchanged. */
  lemma StripOfClean(s: string)
    requires NoOuterSpace(s)
    ensures Strip(s) == s
  {
  }

  /** `re.sub(r"\s+", " ", s)`: every maximal run of whitespace becomes one plain space. */
  function Collapse(s: string): (r: string)
    ensures NoSpaceRun(r) && OnlyPlainSpaces(r)
    ensures r == [] <==> s == []
    ensures r != [] ==> (IsSpace(r[0]) <==> IsSpace(s[0]))
    ensures AllSpace(r) <==> AllSpace(s)
    decreases |s|
  {
    if s == [] then []
    else if IsSpace(s[0]) then
      var e := SpaceEnd(s, 0);
      var t := s[e..];
      assert AllSpace(s) <==> AllSpace(t) by {
        assert s == s[..e] + t;
        assert AllSpace(s[..e]);
      }
      var r := [' '] + Collapse(t);
      assert r[1..] == Collapse(t);
      assert AllSpace(r) <==> AllSpace(r[1..]);
      r
    else
      [s[0]] + Collapse(s[1..])
  }

  /** A stretch of a string inherits the absence of whitespace runs and of other whitespace. */
  lemma SliceStaysClean(s: string, i: nat, j: nat)
    requires i <= j <= |s|
    requires NoSpaceRun(s) && OnlyPlainSpaces(s)
    ensures NoSpaceRun(s[i..j]) && OnlyPlainSpaces(s[i..j])
  {
    var t := s[i..j];
    forall k | 0 <= k < |t| - 1 && IsSpace(t[k]) ensures !IsSpace(t[k + 1]) {
      assert t[k] == s[i + k] && t[k + 1] == s[i + k + 1];
    }
    forall k | 0 <= k < |t| && IsSpace(t[k]) ensures t[k] == ' ' {
      assert t[k] == s[i + k];
    }
  }

  /** The clean-up every extracted value goes through: collapse runs, then strip. */
  function Normalize(s: string): (r: string)
    ensures Normalized(r)
    ensures r == [] <==> AllSpace(s)
  {
    var c := Collapse(s);
    var a := SpaceEnd(c, 0);
    SliceStaysClean(c, a, TrimEnd(c, a, |c|));
    Strip(c)
  }

  /** Normalising twice gives the same value as normalising once. */
  lemma NormalizeIdempotent(s: string)
    ensures Normalize(Normalize(s)) == Normalize(s)
  {
    var n := Normalize(s);
    CollapseOfNormalized(n);
    StripOfClean(n);
  }

  /** A string without whitespace runs, other whitespace or a leading space is a fixed point of collapsing. */
  lemma {:induction false} CollapseOfNormalized(s: string)
    requires NoSpaceRun(s) && OnlyPlainSpaces(s)
    requires s == [] || !IsSpace(s[0])
    ensures Collapse(s) == s
    decreases |s|
  {
    if s != [] {
      var t := s[1..];
      SliceStaysClean(s, 1, |s|);
      if t != [] && IsSpace(t[0]) {
        assert t[0] == ' ';
        var u := t[1..];
        SliceStaysClean(s, 2, |s|);
        assert u == [] || !IsSpace(u[0]) by {
          if u != [] { assert u[0] == s[2] && s[1] == t[0]; }
        }
        assert SpaceEnd(t, 0) == 1;
        CollapseOfNormalized(u);
        assert t == [t[0]] + u;
        assert Collapse(t) == t;
      } else {
        CollapseOfNormalized(t);
      }
      assert s == [s[0]] + t;
    }
  }

  // ---------------------------------------------------------------------
  // Case

  /** `str.lower()` on one character, restricted to ASCII letters. */
  function LowerChar(c: char): char {
    if 'A' <= c <= 'Z' then (c as int + 32) as char else c
  }

  /** `str.lower()`, restricted to ASCII letters. */
  function Lower(s: string): (r: string)
    ensures |r| == |s|
    ensures forall i :: 0 <= i < |s| ==> r[i] == LowerChar(s[i])
  {
    if s == [] then [] else [LowerChar(s[0])] + Lower(s[1..])
  }

  /** Lowercasing a lowercased string changes nothing. */
  lemma LowerIdempotent(s: string)
    ensures Lower(Lower(s)) == Lower(s)
  {
    var l := Lower(s);
    assert forall i :: 0 <= i < |l| ==> Lower(l)[i] == l[i];
  }

  /**
   * The character equivalence of `re.IGNORECASE`: ASCII letters fold to
   * lower case; dotted capital I and dotless small i fold to `i`, long s to
   * `s`, the Kelvin sign to `k` (the special cases Python's regular
   * expression engine adds).
   */
  function Fold(c: char): char {
    if 'A' <= c <= 'Z' then (c as int + 32) as char
    else if c as int == 0x130 || c as int == 0x131 then 'i'
    else if c as int == 0x17F then 's'
    else if c as int == 0x212A then 'k'
    else c
  }

  /** `t` occurs at position `i` of `s`, up to `re.IGNORECASE`. */
  predicate FoldMatchAt(s: string, i: nat, t: string) {
    i + |t| <= |s| && forall k :: 0 <= k < |t| ==> Fold(s[i + k]) == Fold(t[k])
  }

  /** The two strings are equal up to `re.IGNORECASE`. */
  predicate FoldEqual(a: string, b: string) {
    |a| == |b| && FoldMatchAt(a, 0, b)
  }

  // ---------------------------------------------------------------------
  // Substrings

  predicate StartsWith(s: string, t: string) {
    |t| <= |s| && s[..|t|] == t
  }

  predicate EndsWith(s: string, t: string) {
    |t| <= |s| && s[|s| - |t|..] == t
  }

  /** Python's `t in s`. */
  predicate Contains(s: string, t: string) {
    StartsWith(s, t) || (s != [] && Contains(s[1..], t))
  }

  /** Every character of a string that contains `t` is found in it. */
  lemma {:induction false} ContainsChars(s: string, t: string, k: nat)
    requires Contains(s, t) && k < |t|
    ensures t[k] in s
  {
    if StartsWith(s, t) {
      assert s[k] == t[k];
    } else {
      ContainsChars(s[1..], t, k);
    }
  }

  /** `s.replace(t, "")`: the non-overlapping occurrences of `t` are removed, left to right. */
  function RemoveAll(s: string, t: string): (r: string)
    requires |t| > 0
    ensures |r| <= |s|
    decreases |s|
  {
    if StartsWith(s, t) then RemoveAll(s[|t|..], t)
    else if s == [] then []
    else [s[0]] + RemoveAll(s[1..], t)
  }

  /** Removing a whitespace-only pattern keeps every character that is not whitespace. */
  lemma {:induction false} RemoveAllKeepsNonSpace(s: string, t: string, c: char)
    requires |t| > 0 && AllSpace(t)
    requires c in s && !IsSpace(c)
    ensures c in RemoveAll(s, t)
    decreases |s|
  {
    if StartsWith(s, t) {
      assert c !in t;
      assert s == s[..|t|] + s[|t|..];
      RemoveAllKeepsNonSpace(s[|t|..], t, c);
    } else if s[0] != c {
      assert s == [s[0]] + s[1..];
      RemoveAllKeepsNonSpace(s[1..], t, c);
    }
  }

  /** A string that has a non-whitespace character does not strip to nothing. */
  lemma StripNonEmpty(s: string, c: char)
    requires c in s && !IsSpace(c)
    ensures Strip(s) != []
  {
  }

  // ---------------------------------------------------------------------
  // Lines

  /** `s.split("\n")`. */
  function SplitLines(s: string): (r: seq<string>)
    ensures |r| >= 1
    ensures forall i :: 0 <= i < |r| ==> '\n' !in r[i]
    ensures JoinLines(r) == s
    decreases |s|
  {
    var e := LineEnd(s, 0);
    if e == |s| then [s]
    else
      var rest := SplitLines(s[e + 1..]);
      assert s == s[..e] + "\n" + s[e + 1..];
      [s[..e]] + rest
  }

  /** `"\n".join(ls)`. */
  function JoinLines(ls: seq<string>): string {
    if |ls| == 0 then ""
    else if |ls| == 1 then ls[0]
    else ls[0] + "\n" + JoinLines(ls[1..])
  }

  // ---------------------------------------------------------------------
  // Integers

  /** The value of a string of ASCII digits. */
  function DigitsValue(s: string): nat
    requires AllDigits(s)
  {
    if s == [] then 0 else DigitsValue(s[..|s| - 1]) * 10 + (s[|s| - 1] as int - '0' as int)
  }

  /**
   * The most digits `int()` reads and `str()` writes: the default of
   * `sys.get_int_max_str_digits()`; past it both raise `ValueError`.
   */
  const MaxStrDigits := 4300

  /**
   * `int(s)`: surrounding whitespace, an optional sign and from one to
   * `MaxStrDigits` ASCII digits. A string that breaks these rules is `None`:
   * that is where `int()` raises `ValueError`.
   */
  function ParseInt(s: string): Option<int> {
    var t := Strip(s);
    if |t| > 1 && (t[0] == '+' || t[0] == '-') && AllDigits(t[1..]) && |t| - 1 <= MaxStrDigits then
      var v: int := DigitsValue(t[1..]);
      Some(if t[0] == '-' then -v else v)
    else if |t| > 0 && AllDigits(t) && |t| <= MaxStrDigits then
      Some(DigitsValue(t))
    else
      None
  }

  /** The magnitude of `n`. */
  function Abs(n: int): nat {
    if n < 0 then -n else n
  }

  /** `str(n)` for a natural number. */
  function ShowNat(n: nat): (r: string)
    ensures |r| > 0 && AllDigits(r)
  {
    if n < 10 then [('0' as int + n) as char]
    else ShowNat(n / 10) + [('0' as int + n % 10) as char]
  }

  /** `str(n)`. */
  function ShowInt(n: int): string {
    if n < 0 then "-" + ShowNat(-n) else ShowNat(n)
  }

  lemma {:induction false} DigitsValueShowNat(n: nat)
    ensures DigitsValue(ShowNat(n)) == n
  {
    if n >= 10 {
      DigitsValueShowNat(n / 10);
      var r := ShowNat(n);
      assert r[..|r| - 1] == ShowNat(n / 10);
    }
  }

  /** The decimal text of a value is never longer than the digits it was read from. */
  lemma {:induction false} ShowNatDigitsValue(d: string)
    requires |d| > 0 && AllDigits(d)
    ensures |ShowNat(DigitsValue(d))| <= |d|
  {
    var n := DigitsValue(d);
    if n >= 10 {
      var init := d[..|d| - 1];
      assert n / 10 == DigitsValue(init);
      if init == [] {
        assert false;
      } else {
        ShowNatDigitsValue(init);
      }
    }
  }

  /** Every integer `int()` returns has at most `MaxStrDigits` digits. */
  lemma ParseIntBounded(s: string)
    requires ParseInt(s).Some?
    ensures |ShowNat(Abs(ParseInt(s).value))| <= MaxStrDigits
  {
    var t := Strip(s);
    if |t| > 1 && (t[0] == '+' || t[0] == '-') && AllDigits(t[1..]) && |t| - 1 <= MaxStrDigits {
      ShowNatDigitsValue(t[1..]);
    } else {
      ShowNatDigitsValue(t);
    }
  }

  /** A run of digits longer than `MaxStrDigits` is not read, even when its value is small. */
  lemma ParseIntTooLong(d: string)
    requires AllDigits(d) && |d| > MaxStrDigits
    ensures ParseInt(d) == None
  {
    StripOfClean(d);
  }

  /** The decimal text of every integer `str()` writes parses back to that integer. */
  lemma ParseIntShowInt(n: int)
    requires |ShowNat(Abs(n))| <= MaxStrDigits
    ensures ParseInt(ShowInt(n)) == Some(n)
  {
    var s := ShowInt(n);
    var d := ShowNat(Abs(n));
    DigitsValueShowNat(Abs(n));
    assert !IsSpace(s[0]) && !IsSpace(s[|s| - 1]);
    StripOfClean(s);
    if n < 0 {
      assert s[1..] == d;
    }
  }
}
