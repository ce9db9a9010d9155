/**
 * The pieces of Python's `str` behaviour the forms rely on: `str.strip()`,
 * `str.isspace()`, case folding for `case=False` matching, substring search,
 * `s.split(sep)[0]`, and the decimal conversions `str(n)` and `int(s)`.
 */
module Texto {
  import opened Wrappers

  /** Python's `str.isspace()` for one code point (the full Unicode whitespace set). */
  predicate IsSpace(c: char) {
    var n := c as int;
    || n == 0x20 || 0x09 <= n <= 0x0D || 0x1C <= n <= 0x1F || n == 0x85 || n == 0xA0
    || n == 0x1680 || 0x2000 <= n <= 0x200A || n == 0x2028 || n == 0x2029
    || n == 0x202F || n == 0x205F || n == 0x3000
  }

  /** An ASCII decimal digit, what `\d` matches in this model. */
  predicate IsDigit(c: char) {
    '0' <= c <= '9'
  }

  predicate AllSpace(s: string) {
    forall i :: 0 <= i < |s| ==> IsSpace(s[i])
  }

  predicate AllDigits(s: string) {
    forall i :: 0 <= i < |s| ==> IsDigit(s[i])
  }

  /** The characters of `s[lo..hi]` are all whitespace. */
  predicate SpacesIn(s: string, lo: int, hi: int)
    requires 0 <= lo <= hi <= |s|
  {
    forall i :: lo <= i < hi ==> IsSpace(s[i])
  }

  /** How many whitespace characters `s.lstrip()` removes. */
  function LeadingSpaces(s: string): (n: nat)
    ensures n <= |s| && SpacesIn(s, 0, n)
    ensures n < |s| ==> !IsSpace(s[n])
  {
    if s != [] && IsSpace(s[0]) then 1 + LeadingSpaces(s[1..]) else 0
  }

  /** How many whitespace characters `s.rstrip()` removes. */
  function TrailingSpaces(s: string): (n: nat)
    ensures n <= |s| && SpacesIn(s, |s| - n, |s|)
    ensures n < |s| ==> !IsSpace(s[|s| - n - 1])
  {
    if s != [] && IsSpace(s[|s| - 1]) then 1 + TrailingSpaces(s[..|s| - 1]) else 0
  }

  /**
   * `s.strip()`: the text between the leading and the trailing whitespace.
   * It is empty exactly when `s` is all whitespace, and otherwise it starts
   * and ends with a non-space character; `StripPartes` gives the whitespace
   * it removed.
   */
  function Strip(s: string): (r: string)
    ensures |r| <= |s|
    ensures r == [] <==> AllSpace(s)
    ensures r != [] ==> !IsSpace(r[0]) && !IsSpace(r[|r| - 1])
  {
    var lo := LeadingSpaces(s);
    if lo == |s| then
      []
    else
      var n := TrailingSpaces(s);
      assert !IsSpace(s[lo]);
      s[lo..|s| - n]
  }

  /** `s` is its strip with whitespace on either side. */
  lemma StripPartes(s: string) returns (antes: string, depois: string)
    ensures s == antes + Strip(s) + depois
    ensures AllSpace(antes) && AllSpace(depois)
  {
    var lo := LeadingSpaces(s);
    if lo == |s| {
      antes, depois := s, [];
      assert s == antes + [] + depois;
    } else {
      var hi := |s| - TrailingSpaces(s);
      assert Strip(s) == s[lo..hi];
      antes, depois := s[..lo], s[hi..];
      assert SpacesIn(s, 0, lo) && SpacesIn(s, hi, |s|);
      assert forall i :: 0 <= i < |antes| ==> antes[i] == s[i];
      assert forall i :: 0 <= i < |depois| ==> depois[i] == s[hi + i];
      assert s == s[..lo] + s[lo..hi] + s[hi..];
    }
  }

  /** Stripping a stripped string changes nothing. */
  lemma StripIdempotent(s: string)
    ensures Strip(Strip(s)) == Strip(s)
  {
    var r := Strip(s);
    if r != [] {
      StripKeepsTrimmed(r);
    }
  }

  /** A string that starts and ends with non-space text is its own strip. */
  lemma StripKeepsTrimmed(s: string)
    requires s != [] && !IsSpace(s[0]) && !IsSpace(s[|s| - 1])
    ensures Strip(s) == s
  {
  }

  /** A trailing whitespace character is removed by strip. */
  lemma StripDropsTrailingSpace(s: string, c: char)
    requires s != [] && !IsSpace(s[0]) && !IsSpace(s[|s| - 1]) && IsSpace(c)
    ensures Strip(s + [c]) == s
  {
    var t := s + [c];
    assert t[..|t| - 1] == s;
  }

  /** Python's `str.lower()` on ASCII and Latin-1 capitals, the letters this model folds. */
  function LowerChar(c: char): (r: char)
    ensures ('A' <= c <= 'Z') ==> r as int == c as int + 32
    ensures !('A' <= c <= 'Z') && !(0xC0 <= c as int <= 0xDE && c as int != 0xD7) ==> r == c
  {
    if 'A' <= c <= 'Z' then (c as int + 32) as char
    else if 0xC0 <= c as int <= 0xDE && c as int != 0xD7 then (c as int + 32) as char
    else c
  }

  function Lower(s: string): (r: string)
    ensures |r| == |s|
    ensures forall i :: 0 <= i < |s| ==> r[i] == LowerChar(s[i])
  {
    if s == [] then [] else [LowerChar(s[0])] + Lower(s[1..])
  }

  /** Whether `sep` occurs in `s` starting at position `i`. */
  predicate OccursAt(s: string, sep: string, i: int) {
    0 <= i && i + |sep| <= |s| && s[i..i + |sep|] == sep
  }

  /** `needle in hay`: some window of `hay` equals `needle`. */
  predicate Contains(hay: string, needle: string) {
    exists i :: 0 <= i <= |hay| && OccursAt(hay, needle, i)
  }

  /** Case-insensitive substring search, as `str.contains(..., case=False)` on a literal filter. */
  predicate ContainsIgnoreCase(hay: string, needle: string) {
    Contains(Lower(hay), Lower(needle))
  }

  /**
   * `s.split(sep)[0]`: the text before the first occurrence of `sep`, or all
   * of `s` when `sep` does not occur. Python refuses an empty separator.
   */
  function BeforeFirst(s: string, sep: string): (r: string)
    requires sep != []
    ensures |r| <= |s| && r == s[..|r|]
    ensures |r| < |s| ==> OccursAt(s, sep, |r|)
    ensures forall i :: 0 <= i < |r| ==> !OccursAt(s, sep, i)
    ensures |r| == |s| ==> forall i :: 0 <= i <= |s| ==> !OccursAt(s, sep, i)
    decreases |s|
  {
    if |s| < |sep| then s
    else if s[..|sep|] == sep then []
    else
      var rest := BeforeFirst(s[1..], sep);
      assert forall i :: 1 <= i <= |s| ==> (OccursAt(s, sep, i) <==> OccursAt(s[1..], sep, i - 1)) by {
        forall i | 1 <= i <= |s|
          ensures OccursAt(s, sep, i) <==> OccursAt(s[1..], sep, i - 1)
        {
          if i + |sep| <= |s| {
            assert s[i..i + |sep|] == s[1..][i - 1..i - 1 + |sep|];
          }
        }
      }
      [s[0]] + rest
  }

  /** The character for one decimal digit. */
  function DigitChar(d: int): (c: char)
    requires 0 <= d < 10
    ensures IsDigit(c) && c as int - '0' as int == d
  {
    ('0' as int + d) as char
  }

  /** `str(n)` for a non-negative integer: its decimal digits, most significant first. */
  function NatToString(n: nat): (r: string)
    ensures r != [] && AllDigits(r)
  {
    if n < 10 then [DigitChar(n)] else NatToString(n / 10) + [DigitChar(n % 10)]
  }

  /** `str(n)` for any integer. */
  function IntToString(n: int): (r: string)
    ensures r != []
    ensures forall i :: 0 <= i < |r| ==> IsDigit(r[i]) || (i == 0 && r[i] == '-')
  {
    if n < 0 then "-" + NatToString(-n) else NatToString(n)
  }

  /** The value of a run of decimal digits. */
  function DigitsValue(s: string): nat
    requires AllDigits(s)
  {
    if s == [] then 0 else DigitsValue(s[..|s| - 1]) * 10 + (s[|s| - 1] as int - '0' as int)
  }

  /**
   * `int(s)` on an optional sign followed by decimal digits; `None` stands for
   * the `ValueError` Python raises on anything else.
   */
  function ParseInt(s: string): (r: Option<int>)
    ensures r.Some? <==> (s != [] && AllDigits(s)) || (|s| >= 2 && (s[0] == '-' || s[0] == '+') && AllDigits(s[1..]))
    ensures AllDigits(s) && s != [] ==> r == Some(DigitsValue(s))
    ensures |s| >= 2 && s[0] == '+' && AllDigits(s[1..]) ==> r == Some(DigitsValue(s[1..]))
    ensures |s| >= 2 && s[0] == '-' && AllDigits(s[1..]) ==> r.Some? && r.value == -(DigitsValue(s[1..]) as int)
  {
    if s == [] then None
    else if s[0] == '-' || s[0] == '+' then
      var body := s[1..];
      if body != [] && AllDigits(body) then
        var v: int := DigitsValue(body);
        Some(if s[0] == '-' then -v else v)
      else None
    else if AllDigits(s) then Some(DigitsValue(s))
    else None
  }

  lemma {:induction false} DigitsValueOfNatToString(n: nat)
    ensures DigitsValue(NatToString(n)) == n
    decreases n
  {
    if n >= 10 {
      var p := NatToString(n / 10);
      var r := NatToString(n);
      assert r[..|r| - 1] == p;
      DigitsValueOfNatToString(n / 10);
    }
  }

  /** `int(str(n)) == n` for every integer. */
  lemma ParseIntToString(n: int)
    ensures ParseInt(IntToString(n)) == Some(n)
  {
    if n < 0 {
      var s := IntToString(n);
      assert s[1..] == NatToString(-n);
      DigitsValueOfNatToString(-n);
    } else {
      DigitsValueOfNatToString(n);
    }
  }
}
