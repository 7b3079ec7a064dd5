/** String functions the backend (Rust) and the client (TypeScript) rely on,
    with the two languages' different notions of whitespace and length. */
module Text {
  import opened Wrappers

  // ---------------------------------------------------------------------
  // Whitespace and trimming
  // ---------------------------------------------------------------------

  /** Rust's `char::is_whitespace`: the Unicode White_Space property. */
  predicate RustWhitespace(c: char) {
    ('\U{0009}' <= c <= '\U{000D}') || c == ' ' || c == '\U{0085}' || c == '\U{00A0}'
    || c == '\U{1680}' || ('\U{2000}' <= c <= '\U{200A}') || c == '\U{2028}' || c == '\U{2029}'
    || c == '\U{202F}' || c == '\U{205F}' || c == '\U{3000}'
  }

  /** The characters JavaScript's `String.prototype.trim` removes: WhiteSpace
      and LineTerminator (ECMA-262). Unlike Rust it includes U+FEFF and excludes U+0085. */
  predicate JsWhitespace(c: char) {
    ('\U{0009}' <= c <= '\U{000D}') || c == ' ' || c == '\U{00A0}'
    || c == '\U{1680}' || ('\U{2000}' <= c <= '\U{200A}') || c == '\U{2028}' || c == '\U{2029}'
    || c == '\U{202F}' || c == '\U{205F}' || c == '\U{3000}' || c == '\U{FEFF}'
  }

  /** Number of leading characters satisfying `ws`. */
  function LeadingCount(s: string, ws: char -> bool): (k: nat)
    ensures k <= |s|
    ensures forall i :: 0 <= i < k ==> ws(s[i])
    ensures k < |s| ==> !ws(s[k])
  {
    if |s| > 0 && ws(s[0]) then 1 + LeadingCount(s[1..], ws) else 0
  }

  /** Number of trailing characters satisfying `ws`. */
  function TrailingCount(s: string, ws: char -> bool): (k: nat)
    ensures k <= |s|
    ensures forall i :: |s| - k <= i < |s| ==> ws(s[i])
    ensures k < |s| ==> !ws(s[|s| - k - 1])
  {
    if |s| > 0 && ws(s[|s| - 1]) then 1 + TrailingCount(s[..|s| - 1], ws) else 0
  }

  /** Removes leading characters satisfying `ws`. */
  function TrimStart(s: string, ws: char -> bool): string {
    s[LeadingCount(s, ws)..]
  }

  /** Removes trailing characters satisfying `ws`. */
  function TrimEnd(s: string, ws: char -> bool): string {
    s[..|s| - TrailingCount(s, ws)]
  }

  /** `str::trim` / `String.prototype.trim` for the given whitespace class. */
  function Trim(s: string, ws: char -> bool): string {
    TrimEnd(TrimStart(s, ws), ws)
  }

  /** A trimmed string is the infix of the input that starts and ends with a
      non-whitespace character, with only whitespace removed on either side. */
  lemma TrimShape(s: string, ws: char -> bool)
    ensures var r := Trim(s, ws);
      (|r| > 0 ==> !ws(r[0]) && !ws(r[|r| - 1]))
      && OccursAt(s, r, LeadingCount(s, ws))
      && (forall i :: 0 <= i < LeadingCount(s, ws) ==> ws(s[i]))
      && (forall i :: LeadingCount(s, ws) + |r| <= i < |s| ==> ws(s[i]))
  {
    var k := LeadingCount(s, ws);
    var t := s[k..];
    var r := TrimEnd(t, ws);
    var e := TrailingCount(t, ws);
    assert r == t[..|t| - e];
    if |r| > 0 {
      assert r[0] == t[0];
      assert r[|r| - 1] == t[|t| - e - 1];
    }
    assert s[k..k + |r|] == r;
    forall i | k + |r| <= i < |s| ensures ws(s[i]) {
      assert s[i] == t[i - k];
    }
  }

  /** Trimming twice is trimming once. */
  lemma TrimIdempotent(s: string, ws: char -> bool)
    ensures Trim(Trim(s, ws), ws) == Trim(s, ws)
  {
    var r := Trim(s, ws);
    TrimShape(s, ws);
    if |r| > 0 {
      assert LeadingCount(r, ws) == 0;
      assert TrailingCount(r, ws) == 0;
    }
  }

  /** Removes every character satisfying `ws` (Rust's `replace(char::is_whitespace, "")`). */
  function RemoveAll(s: string, ws: char -> bool): (r: string)
    ensures |r| <= |s|
    ensures forall i :: 0 <= i < |r| ==> !ws(r[i])
    ensures forall c :: c in s && !ws(c) ==> c in r
  {
    if s == [] then []
    else if ws(s[0]) then RemoveAll(s[1..], ws)
    else [s[0]] + RemoveAll(s[1..], ws)
  }

  // ---------------------------------------------------------------------
  // Lengths
  // ---------------------------------------------------------------------

  /** Bytes needed to encode `c` in UTF-8. */
  function Utf8Width(c: char): nat {
    if c as int < 0x80 then 1 else if c as int < 0x800 then 2 else if c as int < 0x10000 then 3 else 4
  }

  /** Rust's `str::len`: the UTF-8 byte length. */
  function Utf8Len(s: string): (n: nat)
    ensures n >= |s|
    ensures n == 0 <==> s == []
  {
    if s == [] then 0 else Utf8Width(s[0]) + Utf8Len(s[1..])
  }

  /** JavaScript's `length`: UTF-16 code units. */
  function Utf16Len(s: string): (n: nat)
    ensures |s| <= n <= 2 * |s|
  {
    if s == [] then 0 else (if s[0] as int < 0x10000 then 1 else 2) + Utf16Len(s[1..])
  }

  // ---------------------------------------------------------------------
  // Searching
  // ---------------------------------------------------------------------

  predicate StartsWith(s: string, prefix: string) {
    |prefix| <= |s| && s[..|prefix|] == prefix
  }

  predicate EndsWith(s: string, suffix: string) {
    |suffix| <= |s| && s[|s| - |suffix|..] == suffix
  }

  /** `sub` occurs in `s` starting at index `i`. */
  predicate OccursAt(s: string, sub: string, i: int) {
    0 <= i && i + |sub| <= |s| && s[i..i + |sub|] == sub
  }

  /** Rust's `str::contains`, JavaScript's `includes`: `sub` occurs at
      some index of `s`. */
  predicate Contains(s: string, sub: string) {
    exists i | 0 <= i <= |s| - |sub| :: OccursAt(s, sub, i)
  }

  /** A string lacking some character of `sub` does not contain `sub`. */
  lemma NotContains(s: string, sub: string, c: char)
    requires c in sub && c !in s
    ensures !Contains(s, sub)
  {
  }

  /** A string contains each of its prefixes. */
  lemma ContainsPrefix(s: string, p: string)
    requires StartsWith(s, p)
    ensures Contains(s, p)
  {
    assert OccursAt(s, p, 0);
  }

  /** Index of the first occurrence of `c`. */
  function IndexOf(s: string, c: char): (i: nat)
    requires c in s
    ensures i < |s| && s[i] == c && c !in s[..i]
  {
    if s[0] == c then 0 else 1 + IndexOf(s[1..], c)
  }

  // ---------------------------------------------------------------------
  // Splitting and joining
  // ---------------------------------------------------------------------

  /** Concatenates `parts` with `sep` between neighbours (Rust's `join`). */
  function Join(parts: seq<string>, sep: string): string {
    if |parts| == 0 then ""
    else if |parts| == 1 then parts[0]
    else parts[0] + sep + Join(parts[1..], sep)
  }

  /** Rust's `str::split(char)`: always at least one piece, none containing `sep`. */
  function Split(s: string, sep: char): (r: seq<string>)
    ensures |r| >= 1
    ensures forall k :: 0 <= k < |r| ==> sep !in r[k]
    decreases |s|
  {
    if sep !in s then [s]
    else
      var i := IndexOf(s, sep);
      [s[..i]] + Split(s[i + 1..], sep)
  }

  /** Splitting and joining with the same separator gives back the input. */
  lemma {:induction false} SplitJoin(s: string, sep: char)
    ensures Join(Split(s, sep), [sep]) == s
    decreases |s|
  {
    if sep in s {
      var i := IndexOf(s, sep);
      var rest := Split(s[i + 1..], sep);
      SplitJoin(s[i + 1..], sep);
      assert Split(s, sep) == [s[..i]] + rest;
      assert (([s[..i]] + rest)[1..]) == rest;
      assert s == s[..i] + [sep] + s[i + 1..];
    }
  }

  /** Rust's `trim_start_matches(pat)` for a string pattern: strips every
      leading repetition of `pat`. */
  function TrimStartMatches(s: string, pat: string): (r: string)
    ensures |r| <= |s| && r == s[|s| - |r|..]
    ensures |pat| > 0 ==> !StartsWith(r, pat)
    decreases |s|
  {
    if |pat| > 0 && StartsWith(s, pat) then TrimStartMatches(s[|pat|..], pat) else s
  }

  /** `pat` written `k` times. */
  function Repeat(pat: string, k: nat): string {
    if k == 0 then [] else pat + Repeat(pat, k - 1)
  }

  /** The number of leading copies of `pat` that `trim_start_matches`
      removes. */
  function Copies(s: string, pat: string): nat
    decreases |s|
  {
    if |pat| > 0 && StartsWith(s, pat) then 1 + Copies(s[|pat|..], pat) else 0
  }

  /** What `trim_start_matches` removes is whole copies of `pat`: the input
      is that many copies followed by the result. */
  lemma {:induction false} TrimStartMatchesRepeats(s: string, pat: string)
    ensures s == Repeat(pat, Copies(s, pat)) + TrimStartMatches(s, pat)
    decreases |s|
  {
    if |pat| > 0 && StartsWith(s, pat) {
      var rest := s[|pat|..];
      var t := TrimStartMatches(rest, pat);
      var k := Copies(rest, pat);
      TrimStartMatchesRepeats(rest, pat);
      assert s == pat + rest;
      assert pat + (Repeat(pat, k) + t) == (pat + Repeat(pat, k)) + t;
    } else {
      assert Repeat(pat, 0) == [];
    }
  }


  // ---------------------------------------------------------------------
  // Case
  // ---------------------------------------------------------------------

  function LowerChar(c: char): char {
    if 'A' <= c <= 'Z' then (c as int + 32) as char else c
  }

  /** JavaScript's `toLowerCase`, restricted to the ASCII letters. */
  function LowerAscii(s: string): string {
    seq(|s|, i requires 0 <= i < |s| => LowerChar(s[i]))
  }

  // ---------------------------------------------------------------------
  // Decimal numbers
  // ---------------------------------------------------------------------

  const I32Min: int := -0x8000_0000
  const I32Max: int := 0x7FFF_FFFF

  predicate IsDigit(c: char) {
    '0' <= c <= '9'
  }

  predicate AllDigits(s: string) {
    forall i :: 0 <= i < |s| ==> IsDigit(s[i])
  }

  function DigitChar(d: nat): char
    requires d < 10
  {
    (48 + d) as char
  }

  /** Value of a string of decimal digits. */
  function DigitsValue(s: string): nat
    requires AllDigits(s)
  {
    if s == [] then 0 else DigitsValue(s[..|s| - 1]) * 10 + (s[|s| - 1] as int - 48)
  }

  /** `format!("{}", n)` for a natural number. */
  function NatToString(n: nat): (r: string)
    ensures |r| > 0 && AllDigits(r)
  {
    if n < 10 then [DigitChar(n)] else NatToString(n / 10) + [DigitChar(n % 10)]
  }

  /** `format!("{}", i)` / JavaScript number-to-string for an integer. */
  function IntToString(i: int): string {
    if i < 0 then "-" + NatToString(-i) else NatToString(i)
  }

  /** Rust's `IntErrorKind`, the reason `str::parse` rejects an integer. */
  datatype IntErrorKind = Empty | InvalidDigit | PosOverflow | NegOverflow

  /** Rust's `ParseIntError` display text. */
  function IntErrorText(k: IntErrorKind): string {
    match k
    case Empty => "cannot parse integer from empty string"
    case InvalidDigit => "invalid digit found in string"
    case PosOverflow => "number too large to fit in target type"
    case NegOverflow => "number too small to fit in target type"
  }

  function Pow10(n: nat): (r: nat)
    ensures r >= 1
  {
    if n == 0 then 1 else 10 * Pow10(n - 1)
  }

  /** The digit loop of Rust's `from_str_radix`, on the magnitude: each
      character is first checked to be a digit, then the accumulated value
      times ten plus the digit is checked against `bound`, the largest
      magnitude of the sign being parsed; the first failing check decides
      the error. */
  function Scan(digits: string, acc: nat, bound: int, over: IntErrorKind): (r: Result<nat, IntErrorKind>)
    ensures r.Ok? ==> r.value <= bound || (digits == [] && r.value == acc)
    ensures r.Err? ==> r.error == InvalidDigit || r.error == over
    decreases |digits|
  {
    if digits == [] then Ok(acc)
    else if !IsDigit(digits[0]) then Err(InvalidDigit)
    else
      var next := acc * 10 + (digits[0] as int - 48);
      if next > bound then Err(over) else Scan(digits[1..], next, bound, over)
  }

  /** Rust's `str::parse` for a signed integer type whose range is [lo, hi]
      (so `lo <= 0 <= hi`): an optional `+` or `-`, then at least one ASCII
      digit and nothing else, scanned left to right. */
  function ParseInt(s: string, lo: int, hi: int): (r: Result<int, IntErrorKind>)
    requires lo <= 0 <= hi
    ensures r.Ok? ==> lo <= r.value <= hi
    ensures r.Err? ==> (r.error == Empty <==> s == [])
  {
    if |s| == 0 then Err(Empty)
    else
      var neg := s[0] == '-';
      var body := if s[0] == '-' || s[0] == '+' then s[1..] else s;
      if |body| == 0 then Err(InvalidDigit)
      else
        match Scan(body, 0, if neg then -lo else hi, if neg then NegOverflow else PosOverflow)
        case Err(e) => Err(e)
        case Ok(v) => if neg then Ok(0 - v) else Ok(v)
  }

  const I64Min: int := -0x8000_0000_0000_0000
  const I64Max: int := 0x7FFF_FFFF_FFFF_FFFF

  /** `str::parse::<i32>`. */
  function ParseI32(s: string): Result<int, IntErrorKind> {
    ParseInt(s, I32Min, I32Max)
  }

  /** `str::parse::<i64>`. */
  function ParseI64(s: string): Result<int, IntErrorKind> {
    ParseInt(s, I64Min, I64Max)
  }

  lemma {:induction false} NatToStringValue(n: nat)
    ensures DigitsValue(NatToString(n)) == n
  {
    if n >= 10 {
      NatToStringValue(n / 10);
      var s := NatToString(n);
      assert s[..|s| - 1] == NatToString(n / 10);
    }
  }

  /** Putting a digit in front of a digit string adds its place value. */
  lemma {:induction false} DigitsValueCons(c: char, t: string)
    requires IsDigit(c) && AllDigits(t)
    ensures AllDigits([c] + t)
    ensures DigitsValue([c] + t) == (c as int - 48) * Pow10(|t|) + DigitsValue(t)
  {
    var d := [c] + t;
    assert forall i :: 0 < i < |d| ==> d[i] == t[i - 1];
    if t != [] {
      var n := |t|;
      var init := t[..n - 1];
      var last := t[n - 1] as int - 48;
      assert d[..|d| - 1] == [c] + init;
      assert t[..|t| - 1] == init;
      DigitsValueCons(c, init);
      PlaceArith(c as int - 48, Pow10(n - 1), DigitsValue(init), last);
    }
  }

  /** The arithmetic of appending one digit `last` after a leading digit
      `d` of place value `p` and a middle worth `w`. */
  lemma PlaceArith(d: int, p: int, w: int, last: int)
    ensures (d * p + w) * 10 + last == d * (10 * p) + (w * 10 + last)
  {
  }

  /** On a digit string, the scan succeeds exactly when the value it spells
      after `acc` stays within `bound`, and then returns that value. */
  lemma {:induction false} ScanDigits(digits: string, acc: nat, bound: int, over: IntErrorKind)
    requires AllDigits(digits)
    ensures var v := acc * Pow10(|digits|) + DigitsValue(digits);
      Scan(digits, acc, bound, over) == if v <= bound || digits == [] then Ok(v) else Err(over)
    decreases |digits|
  {
    if digits != [] {
      var c := digits[0];
      var t := digits[1..];
      assert digits == [c] + t;
      DigitsValueCons(c, t);
      var next := acc * 10 + (c as int - 48);
      ShiftValue(acc, c as int - 48, |t|, DigitsValue(t));
      if next <= bound {
        ScanDigits(t, next, bound, over);
      }
    }
  }

  /** The arithmetic of one scan step: `acc` followed by digit `d` and then
      `n` more digits worth `w`. */
  lemma ShiftValue(acc: nat, d: nat, n: nat, w: nat)
    ensures acc * Pow10(n + 1) + (d * Pow10(n) + w) == (acc * 10 + d) * Pow10(n) + w
    ensures (acc * 10 + d) * Pow10(n) + w >= acc * 10 + d
  {
    var p := Pow10(n);
    assert Pow10(n + 1) == 10 * p;
    assert acc * (10 * p) == (acc * 10) * p;
    assert (acc * 10 + d) * p == (acc * 10) * p + d * p;
    assert (acc * 10 + d) * p >= (acc * 10 + d) * 1;
  }

  /** An error found in a prefix of the digits is the scan's answer. */
  lemma {:induction false} ScanPrefixErr(digits: string, rest: string, acc: nat, bound: int, over: IntErrorKind)
    requires Scan(digits, acc, bound, over).Err?
    ensures Scan(digits + rest, acc, bound, over) == Scan(digits, acc, bound, over)
    decreases |digits|
  {
    assert digits != [];
    assert (digits + rest)[0] == digits[0] && (digits + rest)[1..] == digits[1..] + rest;
    if IsDigit(digits[0]) {
      var next := acc * 10 + (digits[0] as int - 48);
      if next <= bound {
        ScanPrefixErr(digits[1..], rest, next, bound, over);
      }
    }
  }

  /** A digit string too large for the type reports the overflow, whatever
      follows it: the scan stops at the overflowing digit and never reaches
      a later non-digit. */
  lemma OverflowBeforeInvalidDigit(digits: string, rest: string, lo: int, hi: int)
    requires lo <= 0 <= hi
    requires |digits| > 0 && AllDigits(digits) && DigitsValue(digits) > hi
    ensures ParseInt(digits + rest, lo, hi) == Err(PosOverflow)
  {
    ScanDigits(digits, 0, hi, PosOverflow);
    ScanPrefixErr(digits, rest, 0, hi, PosOverflow);
    assert (digits + rest)[0] == digits[0];
  }

  /** For example, "9223372036854775808x" is too large for an i64, and the
      error is the overflow rather than the invalid digit. */
  lemma I64OverflowWins()
    ensures ParseI64(NatToString(I64Max + 1) + "x") == Err(PosOverflow)
  {
    NatToStringValue(I64Max + 1);
    OverflowBeforeInvalidDigit(NatToString(I64Max + 1), "x", I64Min, I64Max);
  }

  /** A successful parse returns the value the digits spell, with its sign;
      a sign and digits spelling a value in range always parse. */
  lemma ParseIntValue(s: string, lo: int, hi: int)
    requires lo <= 0 <= hi
    requires |s| > 0
    requires var body := if s[0] == '-' || s[0] == '+' then s[1..] else s; |body| > 0 && AllDigits(body)
    ensures var body := if s[0] == '-' || s[0] == '+' then s[1..] else s;
      var v: int := if s[0] == '-' then 0 - DigitsValue(body) else DigitsValue(body);
      ParseInt(s, lo, hi) == if lo <= v <= hi then Ok(v) else Err(if s[0] == '-' then NegOverflow else PosOverflow)
  {
    var body := if s[0] == '-' || s[0] == '+' then s[1..] else s;
    var neg := s[0] == '-';
    ScanDigits(body, 0, if neg then -lo else hi, if neg then NegOverflow else PosOverflow);
  }

  /** Formatting an integer in range and parsing it back gives the same number. */
  lemma ParseFormatRoundTrip(n: int, lo: int, hi: int)
    requires lo <= n <= hi && lo <= 0 <= hi
    ensures ParseInt(IntToString(n), lo, hi) == Ok(n)
  {
    var s := IntToString(n);
    if n < 0 {
      var t := NatToString(-n);
      NatToStringValue(-n);
      assert s[0] == '-' && s[1..] == t;
    } else {
      var t := NatToString(n);
      NatToStringValue(n);
      assert IsDigit(s[0]);
      assert s[0] != '-' && s[0] != '+';
    }
    ParseIntValue(s, lo, hi);
  }
}
