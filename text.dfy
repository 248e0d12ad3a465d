/** Optional values and results, shared by the parsers and the dialog rules. */
module Wrappers {
  datatype Option<T> = None | Some(value: T)

  datatype Result<T, E> = Ok(value: T) | Err(error: E)
}

/** The character-level helpers the C++ library supplies to src/SchedulerApp.cpp:
    the white-space set of isspace (and of the normaliser's trim), decimal digits,
    std::to_string on non-negative values, strtol's reading of a leading integer,
    and substring search. */
module Text {
  import opened Wrappers

  /** isspace in the "C" locale: space, \t, \n, \v, \f, \r. */
  predicate IsSpace(c: char) {
    c == ' ' || c == '\t' || c == '\n' || c == '\U{000B}' || c == '\U{000C}' || c == '\r'
  }

  predicate IsDigit(c: char) {
    '0' <= c <= '9'
  }

  predicate AllDigits(s: string) {
    forall i :: 0 <= i < |s| ==> IsDigit(s[i])
  }

  function DigitValue(c: char): (d: nat)
    requires IsDigit(c)
    ensures d < 10
  {
    c as int - '0' as int
  }

  function DigitChar(d: nat): (c: char)
    requires d < 10
    ensures IsDigit(c) && DigitValue(c) == d
  {
    ('0' as int + d) as char
  }

  /** The value of a run of decimal digits, most significant first. */
  function DecimalValue(ds: string): nat
    requires AllDigits(ds)
  {
    if ds == [] then 0
    else 10 * DecimalValue(ds[..|ds| - 1]) + DigitValue(ds[|ds| - 1])
  }

  /** std::to_string of a non-negative value: its decimal digits without
      leading zeros. */
  function DecimalString(n: nat): (s: string)
    ensures 1 <= |s| && AllDigits(s)
    ensures s[0] == '0' ==> n == 0
  {
    if n < 10 then [DigitChar(n)] else DecimalString(n / 10) + [DigitChar(n % 10)]
  }

  lemma {:induction false} DecimalRoundTrip(n: nat)
    ensures DecimalValue(DecimalString(n)) == n
  {
    if n >= 10 {
      var s := DecimalString(n);
      assert s[..|s| - 1] == DecimalString(n / 10);
      DecimalRoundTrip(n / 10);
    }
  }

  /** The end of the run of digits that starts at p. */
  function DigitsEnd(s: string, p: nat): (q: nat)
    requires p <= |s|
    ensures p <= q <= |s| && AllDigits(s[p..q])
    ensures q == |s| || !IsDigit(s[q])
    decreases |s| - p
  {
    if p < |s| && IsDigit(s[p]) then DigitsEnd(s, p + 1) else p
  }

  /** DigitsEnd finds the end of any digit run that is not followed by a digit. */
  lemma {:induction false} DigitsEndOfRun(s: string, p: nat, q: nat)
    requires p <= q <= |s| && AllDigits(s[p..q]) && (q == |s| || !IsDigit(s[q]))
    ensures DigitsEnd(s, p) == q
    decreases q - p
  {
    if p < q {
      assert IsDigit(s[p..q][0]);
      assert s[p + 1..q] == s[p..q][1..];
      DigitsEndOfRun(s, p + 1, q);
    }
  }

  /** The end of the run of white space that starts at p. */
  function SpacesEnd(s: string, p: nat): (q: nat)
    requires p <= |s|
    ensures p <= q <= |s|
    ensures forall i :: p <= i < q ==> IsSpace(s[i])
    ensures q == |s| || !IsSpace(s[q])
    decreases |s| - p
  {
    if p < |s| && IsSpace(s[p]) then SpacesEnd(s, p + 1) else p
  }

  /** A leading integer as strtol reads it: its value and where reading stopped. */
  datatype Parsed = Parsed(value: int, end: nat)

  /** Where strtol's digits begin: after the leading white space and one optional sign. */
  function DigitsStart(s: string): (j: nat)
    ensures SpacesEnd(s, 0) <= j <= |s|
    ensures j == SpacesEnd(s, 0) + 1 <==> SpacesEnd(s, 0) < |s| && (s[SpacesEnd(s, 0)] == '+' || s[SpacesEnd(s, 0)] == '-')
  {
    var i := SpacesEnd(s, 0);
    if i < |s| && (s[i] == '+' || s[i] == '-') then i + 1 else i
  }

  /** The sign strtol reads is a minus. */
  predicate NegativeSign(s: string) {
    SpacesEnd(s, 0) < |s| && s[SpacesEnd(s, 0)] == '-'
  }

  /** strtol in base 10: white space is skipped, then an optional sign, then
      at least one digit; with no digit nothing is read. The value is the
      signed value of the whole digit run, and reading stops at its end. */
  function ParseLeadingInteger(s: string): (r: Option<Parsed>)
    ensures r.None? <==> DigitsStart(s) == |s| || !IsDigit(s[DigitsStart(s)])
    ensures r.Some? ==> DigitsStart(s) < r.value.end == DigitsEnd(s, DigitsStart(s))
    ensures r.Some? ==> r.value.end == |s| || !IsDigit(s[r.value.end])
    ensures r.Some? ==>
      r.value.value == (if NegativeSign(s) then -1 else 1) * DecimalValue(s[DigitsStart(s)..r.value.end])
  {
    var j := DigitsStart(s);
    var k := DigitsEnd(s, j);
    if k == j then None
    else
      var v: int := DecimalValue(s[j..k]);
      Some(Parsed(if NegativeSign(s) then -v else v, k))
  }

  predicate InInt32(x: int) {
    -0x8000_0000 <= x < 0x8000_0000
  }

  predicate InInt64(x: int) {
    -0x8000_0000_0000_0000 <= x < 0x8000_0000_0000_0000
  }

  /** std::stoi: the leading integer, whatever follows it; it throws (None)
      when there is no digit or the value is outside int. */
  function Stoi(s: string): (r: Option<int>)
    ensures r.Some? <==> ParseLeadingInteger(s).Some? && InInt32(ParseLeadingInteger(s).value.value)
    ensures r.Some? ==> r.value == ParseLeadingInteger(s).value.value
  {
    match ParseLeadingInteger(s)
    case None => None
    case Some(p) => if InInt32(p.value) then Some(p.value) else None
  }

  /** strtol and stoi read a number's decimal text up to the first non-digit
      after it: stoi ignores what follows the number. */
  lemma DecimalPrefixParses(n: nat, rest: string)
    requires rest == [] || !IsDigit(rest[0])
    ensures ParseLeadingInteger(DecimalString(n) + rest) == Some(Parsed(n, |DecimalString(n)|))
    ensures InInt32(n) ==> Stoi(DecimalString(n) + rest) == Some(n)
    ensures !InInt32(n) ==> Stoi(DecimalString(n) + rest) == None
  {
    var ds := DecimalString(n);
    var s := ds + rest;
    assert s[0] == ds[0];
    assert s[0..|ds|] == ds;
    DigitsEndOfRun(s, 0, |ds|);
    DecimalRoundTrip(n);
  }

  /** Whether sub occurs in s (find != npos). */
  predicate Contains(s: string, sub: string) {
    exists i :: 0 <= i <= |s| && sub <= s[i..]
  }

  lemma ContainsAt(s: string, sub: string, i: int)
    requires 0 <= i <= |s| && sub <= s[i..]
    ensures Contains(s, sub)
  {
  }

  /** The position of the last character that is not white space, or -1. */
  function LastNotSpace(s: string): (j: int)
    ensures -1 <= j < |s|
    ensures forall k :: j < k < |s| ==> IsSpace(s[k])
    ensures j == -1 || !IsSpace(s[j])
  {
    if s == [] then -1
    else if IsSpace(s[|s| - 1]) then LastNotSpace(s[..|s| - 1])
    else |s| - 1
  }

  /** The text with leading and trailing white space removed
      (find_first_not_of and find_last_not_of, then substr). */
  function Trim(s: string): (r: string)
    ensures r == [] <==> forall i :: 0 <= i < |s| ==> IsSpace(s[i])
    ensures r != [] ==> !IsSpace(r[0]) && !IsSpace(r[|r| - 1])
    ensures SpacesEnd(s, 0) + |r| <= |s|
    ensures r != [] ==> SpacesEnd(s, 0) + |r| == LastNotSpace(s) + 1
    ensures forall k :: 0 <= k < |r| ==> r[k] == s[SpacesEnd(s, 0) + k]
  {
    var first := SpacesEnd(s, 0);
    if first == |s| then []
    else s[first..LastNotSpace(s) + 1]
  }

  /** A text that neither begins nor ends with white space is its own trim. */
  lemma TrimUnspaced(s: string)
    requires s != [] && !IsSpace(s[0]) && !IsSpace(s[|s| - 1])
    ensures Trim(s) == s
  {
    assert SpacesEnd(s, 0) == 0;
    assert LastNotSpace(s) == |s| - 1;
  }

  /** Trimming twice is trimming once. */
  lemma TrimIdempotent(s: string)
    ensures Trim(Trim(s)) == Trim(s)
  {
    var r := Trim(s);
    if r != [] {
      assert SpacesEnd(r, 0) == 0;
      assert LastNotSpace(r) == |r| - 1;
    }
  }
}
