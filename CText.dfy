/** The parts of the C library the shell relies on, stated by their ASCII
    and decimal meaning: `isspace`, `tolower`, `strcasecmp`, `strtol`, and
    reading a NUL-terminated string out of a character buffer. */
module CText {

  const NUL: char := '\0'

  /** `isspace` in the "C" locale: space, tab, newline, vertical tab,
      form feed and carriage return. */
  predicate IsSpace(c: char) {
    c == ' ' || c == '\t' || c == '\n' || c == 11 as char || c == 12 as char || c == '\r'
  }

  predicate IsDigit(c: char) {
    '0' <= c <= '9'
  }

  /** The contents of a C string never include its terminator. */
  predicate NoNul(s: string) {
    forall i | 0 <= i < |s| :: s[i] != NUL
  }

  /** `tolower` in the "C" locale: only 'A' to 'Z' change. */
  function Lower(c: char): char {
    if 'A' <= c <= 'Z' then (c as int + 32) as char else c
  }

  /** Two strings are equal once ASCII letters are folded to lower case. */
  predicate EqualIgnoringCase(a: string, b: string) {
    |a| == |b| && forall i | 0 <= i < |a| :: Lower(a[i]) == Lower(b[i])
  }

  /** Two strings equal to a third up to case are equal to each other up
      to case. */
  lemma FoldTransitive(a: string, b: string, c: string)
    requires EqualIgnoringCase(a, c) && EqualIgnoringCase(b, c)
    ensures EqualIgnoringCase(a, b)
  {
  }

  /** `strcasecmp` on the contents of two C strings: lower-cased characters
      are compared pairwise until a pair differs or a string ends, the end of
      a string reading as NUL; the result is the difference of the last pair
      compared, so it is zero exactly when the strings agree ignoring case. */
  function CaseCmp(a: string, b: string): (r: int)
    ensures NoNul(a) && NoNul(b) ==> (r == 0 <==> EqualIgnoringCase(a, b))
    decreases |a|
  {
    var ca := if |a| == 0 then 0 else Lower(a[0]) as int;
    var cb := if |b| == 0 then 0 else Lower(b[0]) as int;
    if ca != cb || |a| == 0 || |b| == 0 then ca - cb
    else
      var r := CaseCmp(a[1..], b[1..]);
      assert NoNul(a) && NoNul(b) && EqualIgnoringCase(a[1..], b[1..]) ==> EqualIgnoringCase(a, b) by {
        if NoNul(a) && NoNul(b) && EqualIgnoringCase(a[1..], b[1..]) {
          forall i | 0 <= i < |a| ensures Lower(a[i]) == Lower(b[i]) {
            if i > 0 { assert a[i] == a[1..][i - 1] && b[i] == b[1..][i - 1]; }
          }
        }
      }
      r
  }

  /** Index of the first NUL at or after `p`; the NUL at `end` bounds the
      search. `NulFromSpec` says it is the first. */
  function NulFrom(s: seq<char>, p: nat, end: nat): (q: nat)
    requires p <= end < |s| && s[end] == NUL
    ensures p <= q <= end
    decreases end - p
  {
    if s[p] == NUL then p else NulFrom(s, p + 1, end)
  }

  lemma {:induction false} NulFromSpec(s: seq<char>, p: nat, end: nat)
    requires p <= end < |s| && s[end] == NUL
    ensures var q := NulFrom(s, p, end);
      s[q] == NUL && forall k | p <= k < q :: s[k] != NUL
    decreases end - p
  {
    if s[p] != NUL {
      NulFromSpec(s, p + 1, end);
    }
  }

  /** The C string that starts at index `p` of buffer `s`: everything up to,
      and not including, the next NUL. */
  function CStr(s: seq<char>, p: nat, end: nat): (r: string)
    requires p <= end < |s| && s[end] == NUL
    ensures p + |r| <= end
  {
    s[p..NulFrom(s, p, end)]
  }

  /** A C string read from a buffer holds no NUL, is the bytes from `p` on,
      and is followed by a NUL. */
  lemma CStrSpec(s: seq<char>, p: nat, end: nat)
    requires p <= end < |s| && s[end] == NUL
    ensures var r := CStr(s, p, end);
      NoNul(r) && r == s[p..p + |r|] && s[p + |r|] == NUL
  {
    NulFromSpec(s, p, end);
  }

  /** A run of decimal digits read as a number, most significant first. */
  function DecimalValue(ds: string): nat
    requires forall i | 0 <= i < |ds| :: IsDigit(ds[i])
  {
    if |ds| == 0 then 0
    else
      assert IsDigit(ds[|ds| - 1]);
      DecimalValue(ds[..|ds| - 1]) * 10 + (ds[|ds| - 1] as int - '0' as int)
  }

  /** End of the run of white space that starts at `i`. */
  function SpacesEnd(s: string, i: nat): (j: nat)
    requires i <= |s|
    ensures i <= j <= |s|
    ensures forall k | i <= k < j :: IsSpace(s[k])
    ensures j < |s| ==> !IsSpace(s[j])
    decreases |s| - i
  {
    if i < |s| && IsSpace(s[i]) then SpacesEnd(s, i + 1) else i
  }

  /** End of the run of decimal digits that starts at `i`. */
  function DigitsEnd(s: string, i: nat): (j: nat)
    requires i <= |s|
    ensures i <= j <= |s|
    ensures forall k | i <= k < j :: IsDigit(s[k])
    ensures j < |s| ==> !IsDigit(s[j])
    decreases |s| - i
  {
    if i < |s| && IsDigit(s[i]) then DigitsEnd(s, i + 1) else i
  }

  /** `long` is 32 bits wide on the target. */
  const LONG_MAX: int := 0x7FFF_FFFF
  const LONG_MIN: int := -0x8000_0000

  /** What `strtol(s, &end_ptr, 10)` delivers: the value, the index
      `end_ptr` points to, and whether `errno` was set to `ERANGE`. */
  datatype Conversion = Conversion(value: int, endIndex: nat, rangeError: bool)

  /** `strtol(s, &end_ptr, 10)` with a 32-bit `long`: optional leading white
      space, an optional sign, then the longest run of decimal digits. Without
      digits nothing is converted, the value is 0 and `end_ptr` is `s` itself.
      A value outside the range of `long` is clamped to the nearer bound and
      sets `ERANGE`. */
  function StrToL(s: string): (r: Conversion)
    ensures r.endIndex <= |s|
    ensures LONG_MIN <= r.value <= LONG_MAX
    ensures r.endIndex == 0 ==> r.value == 0 && !r.rangeError
    ensures r.rangeError ==> r.value == LONG_MAX || r.value == LONG_MIN
    ensures r.endIndex > 0 ==> IsDigit(s[r.endIndex - 1])
  {
    var i := SpacesEnd(s, 0);
    var negative := i < |s| && s[i] == '-';
    var j := if i < |s| && (s[i] == '+' || s[i] == '-') then i + 1 else i;
    var k := DigitsEnd(s, j);
    if k == j then Conversion(0, 0, false)
    else
      assert IsDigit(s[k - 1]);
      var magnitude: int := DecimalValue(s[j..k]);
      var v: int := if negative then -magnitude else magnitude;
      if v > LONG_MAX then Conversion(LONG_MAX, k, true)
      else if v < LONG_MIN then Conversion(LONG_MIN, k, true)
      else Conversion(v, k, false)
  }

  /** A word of decimal digits followed by anything that does not start
      with a digit converts to the word's value and stops after the word. */
  lemma {:induction false} StrToLDecimal(ds: string, rest: string)
    requires |ds| > 0 && forall i | 0 <= i < |ds| :: IsDigit(ds[i])
    requires |rest| == 0 || !IsDigit(rest[0])
    ensures DecimalValue(ds) <= LONG_MAX ==>
      StrToL(ds + rest) == Conversion(DecimalValue(ds), |ds|, false)
    ensures DecimalValue(ds) > LONG_MAX ==>
      StrToL(ds + rest) == Conversion(LONG_MAX, |ds|, true)
  {
    var s := ds + rest;
    assert s[0] == ds[0];
    assert SpacesEnd(s, 0) == 0;
    assert |ds| < |s| ==> s[|ds|] == rest[0];
    assert forall i | 0 <= i < |ds| :: IsDigit(s[i]);
    assert |ds| < |s| ==> !IsDigit(s[|ds|]);
    var k := DigitsEnd(s, 0);
    assert k == |ds|;
    assert s[0..k] == ds;
  }
}
