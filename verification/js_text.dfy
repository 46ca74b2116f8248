/** The JavaScript string operations the controllers rely on: `trim`, truthiness of a
    request field, `toLowerCase`, `parseInt(_, 10)` and the `Number` coercion that
    arithmetic applies to a query-string value. */
module JsText {
  import opened Wrappers

  /** The WhiteSpace and LineTerminator code points that `String.prototype.trim` and the
      number parsers strip (ECMAScript, section 12.2 and 12.3). */
  predicate IsWhitespace(c: char) {
    || c == ' ' || c == '\t' || c == '\n' || c == '\r'
    || c == '\U{000B}' || c == '\U{000C}' || c == '\U{00A0}' || c == '\U{1680}'
    || ('\U{2000}' <= c <= '\U{200A}')
    || c == '\U{2028}' || c == '\U{2029}' || c == '\U{202F}' || c == '\U{205F}'
    || c == '\U{3000}' || c == '\U{FEFF}'
  }

  /** Every character of `s` is white space (vacuously true of ""). */
  predicate Blank(s: string) {
    forall i :: 0 <= i < |s| ==> IsWhitespace(s[i])
  }

  /** Length of the longest all-white-space prefix of `s`. */
  function LeadingWs(s: string): (n: nat)
    ensures n <= |s|
    ensures Blank(s[..n])
    ensures n < |s| ==> !IsWhitespace(s[n])
    decreases |s|
  {
    if |s| == 0 || !IsWhitespace(s[0]) then 0
    else
      var m := LeadingWs(s[1..]);
      assert s[..1 + m] == [s[0]] + s[1..][..m];
      1 + m
  }

  /** Length of the longest all-white-space suffix of `s`. */
  function TrailingWs(s: string): (n: nat)
    ensures n <= |s|
    ensures Blank(s[|s| - n..])
    ensures n < |s| ==> !IsWhitespace(s[|s| - n - 1])
    decreases |s|
  {
    if |s| == 0 || !IsWhitespace(s[|s| - 1]) then 0
    else
      var p := s[..|s| - 1];
      var m := TrailingWs(p);
      var tail := s[|s| - (1 + m)..];
      forall j | 0 <= j < |tail| ensures IsWhitespace(tail[j]) {
        if j < m {
          assert tail[j] == p[|p| - m..][j];
        } else {
          assert tail[j] == s[|s| - 1];
        }
      }
      1 + m
  }

  /** `String.prototype.trim`: the slice of `s` left after dropping white space at both
      ends. The result is empty exactly when `s` is all white space. */
  function Trim(s: string): (r: string)
    ensures |r| <= |s|
    ensures r != [] ==> !IsWhitespace(r[0]) && !IsWhitespace(r[|r| - 1])
    ensures exists a :: 0 <= a <= |s| - |r| && r == s[a..a + |r|] && Blank(s[..a]) && Blank(s[a + |r|..])
    ensures r == [] <==> Blank(s)
  {
    var a := LeadingWs(s);
    var rest := s[a..];
    var r := rest[..|rest| - TrailingWs(rest)];
    TrimParts(s, a, rest, r);
    r
  }

  lemma TrimParts(s: string, a: nat, rest: string, r: string)
    requires a == LeadingWs(s) && rest == s[a..] && r == rest[..|rest| - TrailingWs(rest)]
    ensures r != [] ==> !IsWhitespace(r[0]) && !IsWhitespace(r[|r| - 1])
    ensures a <= |s| - |r| && r == s[a..a + |r|] && Blank(s[..a]) && Blank(s[a + |r|..])
    ensures r == [] <==> Blank(s)
  {
    var b := TrailingWs(rest);
    var tail := rest[|rest| - b..];
    assert r == s[a..a + |r|] && tail == s[a + |r|..];
    BlankSplit(s, a);
    BlankSplit(rest, |rest| - b);
    assert r != [] ==> r[0] == s[a] && r[|r| - 1] == rest[|rest| - b - 1];
    if a < |s| {
      assert !IsWhitespace(s[a]);
      assert !Blank(s);
    }
  }

  /** A string is blank exactly when both halves of any split are. */
  lemma BlankSplit(s: string, a: nat)
    requires a <= |s|
    ensures Blank(s) <==> Blank(s[..a]) && Blank(s[a..])
  {
    forall i | 0 <= i < a ensures s[..a][i] == s[i] { }
    forall i | a <= i < |s| ensures s[a..][i - a] == s[i] { }
  }

  /** `!v` for a request field that is either a string or `undefined`. */
  predicate Falsy(v: Option<string>) {
    v.None? || v.value == ""
  }

  /** `!v || v.trim() === ""`: the field is missing or holds only white space. */
  predicate MissingOrBlank(v: Option<string>) {
    Falsy(v) || Trim(v.value) == ""
  }

  /** `v?.trim() === ""`: a present field that trims to the empty string. An absent
      field yields `undefined`, which is not `""`. */
  predicate TrimsToEmpty(v: Option<string>) {
    v.Some? && Trim(v.value) == ""
  }

  lemma {:induction false} MissingOrBlankIff(v: Option<string>)
    ensures MissingOrBlank(v) <==> v.None? || Blank(v.value)
    ensures TrimsToEmpty(v) <==> v.Some? && Blank(v.value)
  {
  }

  predicate IsUpper(c: char) {
    'A' <= c <= 'Z'
  }

  /** `toLowerCase` on one character (ASCII letters only). */
  function LowerChar(c: char): char {
    if IsUpper(c) then (c as int + 32) as char else c
  }

  /** `String.prototype.toLowerCase`, for ASCII letters. */
  function Lower(s: string): (r: string)
    ensures |r| == |s|
    ensures forall i :: 0 <= i < |r| ==> !IsUpper(r[i])
    ensures forall i :: 0 <= i < |s| && IsUpper(s[i]) ==> r[i] as int == s[i] as int + 32
    ensures forall i :: 0 <= i < |s| && !IsUpper(s[i]) ==> r[i] == s[i]
  {
    if |s| == 0 then []
    else [LowerChar(s[0])] + Lower(s[1..])
  }

  /** Lower-casing twice is lower-casing once. */
  lemma {:induction false} LowerIdempotent(s: string)
    ensures Lower(Lower(s)) == Lower(s)
  {
    var l := Lower(s);
    assert forall i :: 0 <= i < |l| ==> Lower(l)[i] == l[i];
  }

  predicate IsDigit(c: char) {
    '0' <= c <= '9'
  }

  predicate AllDigits(s: string) {
    forall i :: 0 <= i < |s| ==> IsDigit(s[i])
  }

  /** Length of the longest all-digit prefix of `s`. */
  function DigitRun(s: string): (n: nat)
    ensures n <= |s|
    ensures AllDigits(s[..n])
    ensures n < |s| ==> !IsDigit(s[n])
    decreases |s|
  {
    if |s| == 0 || !IsDigit(s[0]) then 0
    else
      var m := DigitRun(s[1..]);
      assert s[..1 + m] == [s[0]] + s[1..][..m];
      1 + m
  }

  /** The value of a string of decimal digits, most significant first. */
  function DigitsValue(s: string): nat
    requires AllDigits(s)
    decreases |s|
  {
    if |s| == 0 then 0
    else
      assert IsDigit(s[|s| - 1]);
      10 * DigitsValue(s[..|s| - 1]) + (s[|s| - 1] as int - '0' as int)
  }

  /** Splits an optional leading sign off `t`: whether it is negative, and the rest. */
  function SplitSign(t: string): (bool, string) {
    if |t| > 0 && (t[0] == '-' || t[0] == '+') then (t[0] == '-', t[1..]) else (false, t)
  }

  /** `parseInt(s, 10)`: skips leading white space, reads an optional sign and the longest
      run of decimal digits; `None` stands for `NaN` (no digit at all). */
  function ParseInt(s: string): (r: Option<int>)
    ensures r.None? <==> DigitRun(SplitSign(s[LeadingWs(s)..]).1) == 0
  {
    var (neg, u) := SplitSign(s[LeadingWs(s)..]);
    var n := DigitRun(u);
    if n == 0 then None
    else
      var v: int := DigitsValue(u[..n]);
      Some(if neg then -v else v)
  }

  /** `Number(s)` for the integer forms a query string takes: white space around an
      optional sign and decimal digits; the empty (or all-blank) string is 0; anything
      else is `NaN` (`None`). */
  function NumberOf(s: string): (r: Option<int>)
    ensures Blank(s) ==> r == Some(0)
  {
    var t := Trim(s);
    if t == [] then Some(0)
    else
      var (neg, u) := SplitSign(t);
      if u != [] && AllDigits(u) then
        var v: int := DigitsValue(u);
        Some(if neg then -v else v)
      else None
  }

  /** The decimal rendering of `n`, the inverse of the parsers above. */
  function ShowNat(n: nat): (r: string)
    ensures r != [] && AllDigits(r)
  {
    var d := ['0' + (n % 10) as char];
    if n < 10 then d else ShowNat(n / 10) + d
  }

  lemma {:induction false} ShowNatValue(n: nat)
    ensures DigitsValue(ShowNat(n)) == n
  {
    if n >= 10 {
      ShowNatValue(n / 10);
      var s := ShowNat(n);
      assert s[..|s| - 1] == ShowNat(n / 10);
    }
  }

  /** Parsing the decimal rendering of a natural number gives it back. */
  lemma ParseIntShowNat(n: nat)
    ensures ParseInt(ShowNat(n)) == Some(n)
  {
    var s := ShowNat(n);
    assert !IsWhitespace(s[0]);
    assert LeadingWs(s) == 0;
    assert s[0..] == s;
    assert DigitRun(s) == |s|;
    assert s[..|s|] == s;
    ShowNatValue(n);
  }

  /** Coercing the decimal rendering of a natural number gives it back. */
  lemma NumberOfShowNat(n: nat)
    ensures NumberOf(ShowNat(n)) == Some(n)
  {
    var s := ShowNat(n);
    assert !IsWhitespace(s[0]) && !IsWhitespace(s[|s| - 1]);
    assert LeadingWs(s) == 0 && TrailingWs(s[0..]) == 0;
    assert Trim(s) == s;
    ShowNatValue(n);
  }
}
