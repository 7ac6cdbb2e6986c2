/**
 * The PHP string built-ins the deployer relies on, over `string = seq<char>`:
 * `trim`, `empty` on strings, `explode`/`implode`, single-character
 * `str_replace`, `str_repeat`, `str_pad(.., STR_PAD_LEFT)`, `(string)` of a
 * non-negative int and the `(int)` cast of a string.
 */
module PhpText {

  /** The characters PHP's `trim` strips by default: " \t\n\r\0\x0B". */
  predicate IsTrimChar(c: char) {
    c == ' ' || c == '\t' || c == '\n' || c == '\r' || c == '\0' || c == '\U{000B}'
  }

  /** Neither end of `s` is a character `trim` would strip. */
  predicate IsTrimmed(s: string) {
    s == [] || (!IsTrimChar(s[0]) && !IsTrimChar(s[|s| - 1]))
  }

  /** Index of the first character of `s` at or after `i` that `trim` keeps, or `|s|`. */
  function TrimStart(s: string, i: nat): (k: nat)
    requires i <= |s|
    ensures i <= k <= |s|
    ensures forall j :: i <= j < k ==> IsTrimChar(s[j])
    ensures k == |s| || !IsTrimChar(s[k])
    decreases |s| - i
  {
    if i < |s| && IsTrimChar(s[i]) then TrimStart(s, i + 1) else i
  }

  /** One past the last character of `s[lo..j]` that `trim` keeps, or `lo`. */
  function TrimEnd(s: string, lo: nat, j: nat): (k: nat)
    requires lo <= j <= |s|
    ensures lo <= k <= j
    ensures forall m :: k <= m < j ==> IsTrimChar(s[m])
    ensures k == lo || !IsTrimChar(s[k - 1])
    decreases j
  {
    if lo < j && IsTrimChar(s[j - 1]) then TrimEnd(s, lo, j - 1) else j
  }

  /** PHP `trim($s)`: `s` with every leading and trailing trim character removed. */
  function Trim(s: string): (r: string)
    ensures IsTrimmed(r)
    ensures exists i, j :: 0 <= i <= j <= |s| && r == s[i..j]
              && (forall m :: 0 <= m < i ==> IsTrimChar(s[m]))
              && (forall m :: j <= m < |s| ==> IsTrimChar(s[m]))
  {
    var i := TrimStart(s, 0);
    var j := TrimEnd(s, i, |s|);
    assert IsTrimmed(s[i..j]) by {
      if i < j {
        assert !IsTrimChar(s[i]);
      }
    }
    s[i..j]
  }

  /** Trimming a string that has nothing to strip leaves it unchanged. */
  lemma TrimIdentity(s: string)
    requires IsTrimmed(s)
    ensures Trim(s) == s
  {
  }

  /** `trim` never lengthens its input, and keeps it whole only by returning it. */
  lemma TrimLength(s: string)
    ensures |Trim(s)| <= |s|
    ensures |Trim(s)| == |s| ==> Trim(s) == s
  {
  }

  /** Everything between two characters that survive `trim` survives it. */
  lemma TrimSpans(s: string, a: nat, b: nat)
    requires a <= b < |s| && !IsTrimChar(s[a]) && !IsTrimChar(s[b])
    ensures |Trim(s)| >= b - a + 1
  {
    var i := TrimStart(s, 0);
    assert i <= a;
    assert TrimEnd(s, i, |s|) > b;
  }

  /** PHP `empty($s)` for a string: true exactly for "" and "0". */
  predicate PhpEmpty(s: string) {
    s == "" || s == "0"
  }

  /** PHP `explode($sep, $s)` for a one-character separator. */
  function Explode(s: string, sep: char): (parts: seq<string>)
    ensures |parts| >= 1
    ensures forall k :: 0 <= k < |parts| ==> sep !in parts[k]
    ensures Implode(parts, sep) == s
  {
    if s == [] then [""]
    else
      var rest := Explode(s[1..], sep);
      if s[0] == sep then
        assert s == [sep] + s[1..];
        [""] + rest
      else
        var parts := [[s[0]] + rest[0]] + rest[1..];
        assert parts[1..] == rest[1..];
        ImplodeHead(rest, sep);
        ImplodeHead(parts, sep);
        assert s == [s[0]] + s[1..];
        parts
  }

  /** PHP `implode($sep, $parts)`. */
  function Implode(parts: seq<string>, sep: char): string
  {
    if parts == [] then ""
    else if |parts| == 1 then parts[0]
    else parts[0] + [sep] + Implode(parts[1..], sep)
  }

  lemma ImplodeHead(parts: seq<string>, sep: char)
    requires |parts| >= 1
    ensures Implode(parts, sep)
            == parts[0] + (if |parts| == 1 then "" else [sep] + Implode(parts[1..], sep))
  {
  }

  /** An empty last part keeps the parts free of the separator. */
  lemma AppendEmptyPart(parts: seq<string>, sep: char)
    requires forall k :: 0 <= k < |parts| ==> sep !in parts[k]
    ensures forall k :: 0 <= k < |parts + [""]| ==> sep !in (parts + [""])[k]
  {
  }

  /** `explode` undoes `implode` when no part contains the separator. */
  lemma {:induction false} ExplodeImplode(parts: seq<string>, sep: char)
    requires |parts| >= 1
    requires forall k :: 0 <= k < |parts| ==> sep !in parts[k]
    ensures Explode(Implode(parts, sep), sep) == parts
    decreases |parts|, |parts[0]|
  {
    ImplodeHead(parts, sep);
    if parts[0] == [] {
      if |parts| > 1 {
        var t := Implode(parts[1..], sep);
        assert Implode(parts, sep) == [sep] + t;
        ExplodeSeparator(sep, t);
        ExplodeImplode(parts[1..], sep);
        assert parts == [""] + parts[1..];
      }
    } else {
      var c := parts[0][0];
      var tailParts := [parts[0][1..]] + parts[1..];
      assert c != sep by { assert parts[0][0] in parts[0]; }
      TailPartsSeparatorFree(parts, sep);
      ImplodeHead(tailParts, sep);
      assert tailParts[1..] == parts[1..];
      var t := Implode(tailParts, sep);
      assert parts[0] == [c] + parts[0][1..];
      assert Implode(parts, sep) == [c] + t;
      ExplodeImplode(tailParts, sep);
      ExplodeOther(c, t, sep);
      assert parts == [[c] + tailParts[0]] + tailParts[1..];
    }
  }

  /** Dropping the first character of the first part keeps every part free of the separator. */
  lemma TailPartsSeparatorFree(parts: seq<string>, sep: char)
    requires |parts| >= 1 && parts[0] != []
    requires forall k :: 0 <= k < |parts| ==> sep !in parts[k]
    ensures var tailParts := [parts[0][1..]] + parts[1..];
            forall k :: 0 <= k < |tailParts| ==> sep !in tailParts[k]
  {
    var tailParts := [parts[0][1..]] + parts[1..];
    forall k | 0 <= k < |tailParts|
      ensures sep !in tailParts[k]
    {
      if k == 0 {
        assert forall x :: x in parts[0][1..] ==> x in parts[0];
      } else {
        assert tailParts[k] == parts[k];
      }
    }
  }

  /** A leading separator starts a new, empty first part. */
  lemma ExplodeSeparator(sep: char, t: string)
    ensures Explode([sep] + t, sep) == [""] + Explode(t, sep)
  {
    assert ([sep] + t)[1..] == t;
  }

  /** Any other leading character joins the first part. */
  lemma ExplodeOther(c: char, t: string, sep: char)
    requires c != sep
    ensures Explode([c] + t, sep) == [[c] + Explode(t, sep)[0]] + Explode(t, sep)[1..]
  {
    assert ([c] + t)[1..] == t;
  }

  /** PHP `str_replace($from, $to, $s)` for single characters. */
  function ReplaceChar(s: string, from: char, to: char): (r: string)
    ensures |r| == |s|
    ensures forall i :: 0 <= i < |s| ==> r[i] == (if s[i] == from then to else s[i])
  {
    if s == [] then [] else [if s[0] == from then to else s[0]] + ReplaceChar(s[1..], from, to)
  }

  /** PHP `str_repeat($c, $n)`. */
  function Repeat(c: char, n: nat): (r: string)
    ensures |r| == n
    ensures forall i :: 0 <= i < n ==> r[i] == c
  {
    if n == 0 then [] else [c] + Repeat(c, n - 1)
  }

  /** PHP `str_pad($s, $width, $c, STR_PAD_LEFT)`. */
  function PadLeft(s: string, width: nat, c: char): (r: string)
    ensures |r| == if |s| >= width then |s| else width
    ensures r[|r| - |s|..] == s
    ensures forall i :: 0 <= i < |r| - |s| ==> r[i] == c
  {
    if |s| >= width then s else Repeat(c, width - |s|) + s
  }

  predicate IsDigit(c: char) {
    '0' <= c <= '9'
  }

  function DigitChar(d: nat): (c: char)
    requires d < 10
    ensures IsDigit(c)
  {
    "0123456789"[d]
  }

  function DigitValue(c: char): nat
    requires IsDigit(c)
  {
    (c as int - '0' as int) as nat
  }

  /** PHP `(string) $n` for a non-negative integer: its decimal digits, no leading zero. */
  function NatToDecimal(n: nat): (r: string)
    ensures |r| >= 1
    ensures forall i :: 0 <= i < |r| ==> IsDigit(r[i])
    ensures |r| > 1 ==> r[0] != '0'
  {
    if n < 10 then [DigitChar(n)] else NatToDecimal(n / 10) + [DigitChar(n % 10)]
  }

  /** The value of a string of decimal digits. */
  function DecimalValue(digits: string): nat
    requires forall i :: 0 <= i < |digits| ==> IsDigit(digits[i])
  {
    if digits == [] then 0
    else DecimalValue(digits[..|digits| - 1]) * 10 + DigitValue(digits[|digits| - 1])
  }

  /** One past the end of the run of decimal digits in `s` that starts at `i`. */
  function DigitsEnd(s: string, i: nat): (k: nat)
    requires i <= |s|
    ensures i <= k <= |s|
    ensures forall j :: i <= j < k ==> IsDigit(s[j])
    ensures k == |s| || !IsDigit(s[k])
    decreases |s| - i
  {
    if i < |s| && IsDigit(s[i]) then DigitsEnd(s, i + 1) else i
  }

  /** Whitespace PHP skips before the digits of a numeric string. */
  predicate IsNumericLeadingSpace(c: char) {
    c == ' ' || c == '\t' || c == '\n' || c == '\r' || c == '\U{000B}' || c == '\U{000C}'
  }

  function NumericStart(s: string, i: nat): (k: nat)
    requires i <= |s|
    ensures i <= k <= |s|
    ensures k == |s| || !IsNumericLeadingSpace(s[k])
    decreases |s| - i
  {
    if i < |s| && IsNumericLeadingSpace(s[i]) then NumericStart(s, i + 1) else i
  }

  /**
   * PHP `(int) $s`: leading whitespace is skipped, then an optional sign and
   * the longest run of digits give the value; no digits give 0.
   */
  function PhpIntCast(s: string): int
  {
    var i := NumericStart(s, 0);
    if i < |s| && (s[i] == '-' || s[i] == '+') then
      var v := DecimalValue(s[i + 1..DigitsEnd(s, i + 1)]);
      if s[i] == '-' then -(v as int) else v
    else
      DecimalValue(s[i..DigitsEnd(s, i)])
  }

  lemma {:induction false} DecimalRoundTrip(n: nat)
    ensures DecimalValue(NatToDecimal(n)) == n
  {
    if n >= 10 {
      var q, r := n / 10, n % 10;
      var d := NatToDecimal(q) + [DigitChar(r)];
      assert d[..|d| - 1] == NatToDecimal(q);
      assert d[|d| - 1] == DigitChar(r);
      DecimalRoundTrip(q);
      DigitCharValue(r);
      assert q * 10 + r == n;
    } else {
      DigitCharValue(n);
    }
  }

  lemma DigitCharValue(d: nat)
    requires d < 10
    ensures DigitValue(DigitChar(d)) == d
  {
  }

  /** `(int)` reads back `(string)` of a natural number left-padded with spaces. */
  lemma IntCastOfPadded(n: nat, width: nat)
    ensures PhpIntCast(PadLeft(NatToDecimal(n), width, ' ')) == n
  {
    var d := NatToDecimal(n);
    var p := PadLeft(d, width, ' ');
    var k := |p| - |d|;
    assert p[k..] == d;
    IntCastAfterSpaces(p, k);
    DecimalRoundTrip(n);
  }

  /** Spaces, then a non-empty run of digits to the end: `(int)` gives the digits' value. */
  lemma IntCastAfterSpaces(p: string, k: nat)
    requires k < |p|
    requires forall m :: 0 <= m < k ==> p[m] == ' '
    requires forall m :: k <= m < |p| ==> IsDigit(p[m])
    ensures PhpIntCast(p) == DecimalValue(p[k..])
  {
    NumericStartOfPadding(p, k, 0);
    DigitsEndAll(p, k);
    assert p[k..DigitsEnd(p, k)] == p[k..];
  }

  /** `(int)` reads back `(string)` of a natural number. */
  lemma IntCastOfDecimal(n: nat)
    ensures PhpIntCast(NatToDecimal(n)) == n
  {
    IntCastOfPadded(n, 0);
  }

  lemma {:induction false} NumericStartOfPadding(p: string, k: nat, i: nat)
    requires i <= k <= |p|
    requires forall m :: i <= m < k ==> p[m] == ' '
    requires k == |p| || !IsNumericLeadingSpace(p[k])
    ensures NumericStart(p, i) == k
    decreases k - i
  {
    if i < k {
      NumericStartOfPadding(p, k, i + 1);
    }
  }

  lemma {:induction false} DigitsEndAll(p: string, i: nat)
    requires i <= |p|
    requires forall m :: i <= m < |p| ==> IsDigit(p[m])
    ensures DigitsEnd(p, i) == |p|
    decreases |p| - i
  {
    if i < |p| {
      DigitsEndAll(p, i + 1);
    }
  }
}
