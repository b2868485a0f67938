/**
 * The Python string primitives the bot relies on: `str.strip()`, `str.strip(chars)`,
 * `str(n)` for a natural number, `int(s)`, the Unicode character tables, `str.split(sep)` and `sep.join(parts)`.
 */
module Text {
  import opened Wrappers

  /** Python's `str.isspace()`: the characters `str.strip()` removes. */
  predicate IsSpace(c: char) {
    || c == ' '
    || ('\t' <= c <= '\r')
    || ('\U{1C}' <= c <= '\U{1F}')
    || c == '\U{85}' || c == '\U{A0}' || c == '\U{1680}'
    || ('\U{2000}' <= c <= '\U{200A}')
    || c == '\U{2028}' || c == '\U{2029}' || c == '\U{202F}' || c == '\U{205F}' || c == '\U{3000}'
  }

  /**
   * The characters `int()` skips around a numeral: the whitespace of
   * `str.isspace()` except the four separators U+001C..U+001F, which `int()`
   * leaves in place (and then rejects).
   */
  predicate IntSpace(c: char) {
    IsSpace(c) && !('\U{1C}' <= c <= '\U{1F}')
  }

  /** The number of leading characters of `s` that `drop` removes. */
  function LeadingCount(s: string, drop: char -> bool): (n: nat)
    ensures n <= |s|
    ensures forall i :: 0 <= i < n ==> drop(s[i])
    ensures n < |s| ==> !drop(s[n])
  {
    if s != [] && drop(s[0]) then 1 + LeadingCount(s[1..], drop) else 0
  }

  /** The number of trailing characters of `s` that `drop` removes. */
  function TrailingCount(s: string, drop: char -> bool): (n: nat)
    ensures n <= |s|
    ensures forall i :: |s| - n <= i < |s| ==> drop(s[i])
    ensures n < |s| ==> !drop(s[|s| - 1 - n])
  {
    if s != [] && drop(s[|s| - 1]) then 1 + TrailingCount(s[..|s| - 1], drop) else 0
  }

  /**
   * Python's `s.strip(chars)`: the longest infix of `s` obtained by removing
   * characters satisfying `drop` from both ends.
   */
  function Trim(s: string, drop: char -> bool): (r: string)
    ensures |r| <= |s|
    ensures r != [] ==> !drop(r[0]) && !drop(r[|r| - 1])
    ensures r == [] <==> forall i :: 0 <= i < |s| ==> drop(s[i])
    ensures var a := LeadingCount(s, drop);
              && a + |r| <= |s| && r == s[a..a + |r|]
              && forall i :: a + |r| <= i < |s| ==> drop(s[i])
    ensures r != [] ==> LeadingCount(s, drop) + |r| + TrailingCount(s, drop) == |s|
  {
    var a := LeadingCount(s, drop);
    if a == |s| then
      assert s[0..0] == [];
      []
    else
      var b := TrailingCount(s, drop);
      assert b <= |s| - 1 - a;
      var r := s[a..|s| - b];
      assert r == s[a..a + |r|];
      assert r[0] == s[a] && r[|r| - 1] == s[|s| - 1 - b];
      r
  }

  /** A character that `drop` keeps is still there after trimming. */
  lemma TrimKeeps(s: string, drop: char -> bool, k: nat)
    requires k < |s| && !drop(s[k])
    ensures s[k] in Trim(s, drop)
  {
    var r := Trim(s, drop);
    var a := LeadingCount(s, drop);
    assert a <= k < a + |r|;
    assert r[k - a] == s[k];
  }

  /** Python's `s.strip()`. */
  function Strip(s: string): string {
    Trim(s, IsSpace)
  }

  /** Trimming removes exactly a removable padding around a middle whose ends stay. */
  lemma TrimPadded(w1: string, m: string, w2: string, drop: char -> bool)
    requires forall i :: 0 <= i < |w1| ==> drop(w1[i])
    requires forall i :: 0 <= i < |w2| ==> drop(w2[i])
    requires m != [] && !drop(m[0]) && !drop(m[|m| - 1])
    ensures Trim(w1 + m + w2, drop) == m
  {
    var s := w1 + m + w2;
    assert forall i :: 0 <= i < |w1| ==> s[i] == w1[i];
    assert s[|w1|] == m[0] && s[|w1| + |m| - 1] == m[|m| - 1];
    assert forall j :: 0 <= j < |w2| ==> s[|w1| + |m| + j] == w2[j];
    assert LeadingCount(s, drop) == |w1|;
    assert TrailingCount(s, drop) == |w2|;
    assert Trim(s, drop) != [] by {
      assert !drop(s[|w1|]);
    }
    assert s[|w1|..|w1| + |m|] == m;
  }

  /** Trimming leaves a string alone when neither end is removable. */
  lemma TrimUnchanged(s: string, drop: char -> bool)
    requires s != [] ==> !drop(s[0]) && !drop(s[|s| - 1])
    ensures Trim(s, drop) == s
  {
    if s != [] {
      assert LeadingCount(s, drop) == 0;
      assert TrailingCount(s, drop) == 0;
    }
  }

  predicate IsDigit(c: char) {
    '0' <= c <= '9'
  }

  predicate AllDigits(s: string) {
    forall i :: 0 <= i < |s| ==> IsDigit(s[i])
  }

  function DigitChar(d: nat): (c: char)
    requires d < 10
    ensures IsDigit(c)
  {
    ('0' as int + d) as char
  }

  function DigitValue(c: char): (d: nat)
    requires IsDigit(c)
    ensures d < 10
  {
    c as int - '0' as int
  }

  /** Python's `str(n)` for a natural number: decimal, no leading zero. */
  function DecimalString(n: nat): (s: string)
    ensures s != [] && AllDigits(s)
    ensures |s| > 1 ==> s[0] != '0'
    decreases n
  {
    if n < 10 then [DigitChar(n)] else DecimalString(n / 10) + [DigitChar(n % 10)]
  }

  /** The value of a string of ASCII decimal digits. */
  function DigitsValue(s: string): nat
    requires AllDigits(s)
  {
    if s == [] then 0 else DigitsValue(s[..|s| - 1]) * 10 + DigitValue(s[|s| - 1])
  }

  /** Reading back what `str(n)` wrote gives `n`. */
  lemma {:induction false} DecimalRoundTrip(n: nat)
    ensures DigitsValue(DecimalString(n)) == n
    decreases n
  {
    if n >= 10 {
      DecimalRoundTrip(n / 10);
      var s := DecimalString(n);
      assert s[..|s| - 1] == DecimalString(n / 10);
    }
  }

  /** `str(n)` of a number in 1000..9999 has exactly four digits. */
  lemma FourDigits(n: nat)
    requires 1000 <= n <= 9999
    ensures |DecimalString(n)| == 4
  {
    assert |DecimalString(n / 1000)| == 1;
    assert |DecimalString(n / 100)| == 2;
    assert |DecimalString(n / 10)| == 3;
  }

  /**
   * Python's Unicode character tables, which cover every script and are
   * therefore given rather than defined: `str.lower()`, `str.isalnum()`, and
   * the value of a decimal digit of any script (Unicode category Nd), which is
   * what `int()` accepts as a digit.
   */
  datatype CharRules = CharRules(lower: string -> string, isAlnum: char -> bool, decimal: char -> Option<nat>)

  /** The digit table agrees with ASCII on `0`..`9`. */
  predicate AsciiDecimal(rules: CharRules) {
    forall c :: IsDigit(c) ==> rules.decimal(c) == Some(DigitValue(c))
  }

  predicate AllDecimal(s: string, decimal: char -> Option<nat>) {
    forall i :: 0 <= i < |s| ==> decimal(s[i]).Some?
  }

  /** The value of a string of decimal digits of any script. */
  function DecimalValue(s: string, decimal: char -> Option<nat>): nat
    requires AllDecimal(s, decimal)
  {
    if s == [] then 0 else DecimalValue(s[..|s| - 1], decimal) * 10 + decimal(s[|s| - 1]).value
  }

  /** On ASCII digits the two readings of a numeral agree. */
  lemma {:induction false} DecimalValueAscii(s: string, rules: CharRules)
    requires AllDigits(s) && AsciiDecimal(rules)
    ensures AllDecimal(s, rules.decimal) && DecimalValue(s, rules.decimal) == DigitsValue(s)
  {
    assert forall i :: 0 <= i < |s| ==> IsDigit(s[i]) && rules.decimal(s[i]) == Some(DigitValue(s[i]));
    if s != [] {
      DecimalValueAscii(s[..|s| - 1], rules);
    }
  }

  /**
   * Python's `int(s)` on text that holds no `_`: surrounding `int()`
   * whitespace, an optional sign and one or more decimal digits; anything else
   * is a ValueError.
   */
  function ParseInt(s: string, decimal: char -> Option<nat>): (r: Option<int>)
    ensures Trim(s, IntSpace) == [] ==> r.None?
    ensures r.Some? && r.value < 0 ==> Trim(s, IntSpace)[0] == '-'
    ensures r.Some? && Trim(s, IntSpace)[0] != '-' ==> r.value >= 0
    ensures r.Some? ==> exists i :: 0 <= i < |s| && decimal(s[i]).Some?
  {
    var t := Trim(s, IntSpace);
    if t == [] then None
    else
      var sign := if t[0] == '-' then -1 else 1;
      var body := if t[0] == '-' || t[0] == '+' then t[1..] else t;
      if body == [] || !AllDecimal(body, decimal) then None
      else
        var a := LeadingCount(s, IntSpace);
        var k := if t[0] == '-' || t[0] == '+' then 1 else 0;
        assert t[k] == s[a + k] && decimal(body[0]).Some?;
        Some(sign * DecimalValue(body, decimal))
  }

  /** `int(str(n)) == n`. */
  lemma ParseIntOfDecimal(n: nat, rules: CharRules)
    requires AsciiDecimal(rules)
    ensures ParseInt(DecimalString(n), rules.decimal) == Some(n)
  {
    var s := DecimalString(n);
    TrimUnchanged(s, IntSpace);
    DecimalRoundTrip(n);
    DecimalValueAscii(s, rules);
    ParseIntUnsigned(s, s, rules.decimal);
  }

  /** Text that trims to unsigned digits reads as their value. */
  lemma ParseIntUnsigned(s: string, t: string, decimal: char -> Option<nat>)
    requires Trim(s, IntSpace) == t && t != [] && t[0] != '-' && t[0] != '+' && AllDecimal(t, decimal)
    ensures ParseInt(s, decimal) == Some(DecimalValue(t, decimal))
  {
  }

  /** Text that trims to `-` and digits reads as the negated value of the digits. */
  lemma ParseIntNegative(s: string, t: string, decimal: char -> Option<nat>)
    requires Trim(s, IntSpace) == t && |t| >= 2 && t[0] == '-' && AllDecimal(t[1..], decimal)
    ensures ParseInt(s, decimal).Some? && ParseInt(s, decimal).value == -(DecimalValue(t[1..], decimal) as int)
  {
  }

  /** Python's `str(z)` for any integer: a `-` before the digits of a negative one. */
  function SignedDecimal(z: int): (s: string)
    ensures s != [] && (s[0] == '-' || IsDigit(s[0])) && IsDigit(s[|s| - 1])
    ensures s[0] == '-' <==> z < 0
    ensures forall k :: 0 <= k < |s| ==> s[k] == '-' || IsDigit(s[k])
  {
    if z < 0 then
      var d := DecimalString(-z);
      assert forall k :: 1 <= k < |d| + 1 ==> ("-" + d)[k] == d[k - 1];
      "-" + d
    else DecimalString(z)
  }

  /**
   * `int(w1 + str(z) + w2) == z` for every integer `z` and every padding of
   * `int()` whitespace on either side.
   */
  lemma ParseIntSigned(w1: string, z: int, w2: string, rules: CharRules)
    requires AsciiDecimal(rules)
    requires forall i :: 0 <= i < |w1| ==> IntSpace(w1[i])
    requires forall i :: 0 <= i < |w2| ==> IntSpace(w2[i])
    ensures ParseInt(w1 + SignedDecimal(z) + w2, rules.decimal) == Some(z)
  {
    var m := SignedDecimal(z);
    TrimPadded(w1, m, w2, IntSpace);
    var n: nat := if z < 0 then -z else z;
    var digits := DecimalString(n);
    DecimalRoundTrip(n);
    DecimalValueAscii(digits, rules);
    if z < 0 {
      assert m[1..] == digits;
      ParseIntNegative(w1 + m + w2, m, rules.decimal);
    } else {
      ParseIntUnsigned(w1 + m + w2, m, rules.decimal);
    }
  }

  /** `int(str(z)) == z`: the signed round trip without padding. */
  lemma ParseIntSignedDecimal(z: int, rules: CharRules)
    requires AsciiDecimal(rules)
    ensures ParseInt(SignedDecimal(z), rules.decimal) == Some(z)
  {
    var m := SignedDecimal(z);
    assert [] + m + [] == m;
    ParseIntSigned([], z, [], rules);
  }

  /** The index of the first `c` in `s`, or `|s|` when there is none. */
  function FirstIndex(s: string, c: char): (i: nat)
    ensures i <= |s|
    ensures i < |s| ==> s[i] == c
    ensures forall j :: 0 <= j < i ==> s[j] != c
  {
    if s == [] then 0 else if s[0] == c then 0 else 1 + FirstIndex(s[1..], c)
  }

  /** Python's `s.split(c, 1)[1]`: the text after the first `c`. */
  function AfterFirst(s: string, c: char): (r: string)
    requires c in s
    ensures exists i :: 0 <= i < |s| && s[i] == c && c !in s[..i] && r == s[i + 1..]
  {
    var i := FirstIndex(s, c);
    assert c !in s[..i];
    s[i + 1..]
  }

  /**
   * When `s` starts with `pre` and the first `c` of `pre` is at `k`, Python's
   * `s.split(c, 1)[1]` is the text after position `k`.
   */
  lemma AfterFirstOfPrefix(s: string, pre: string, c: char, k: nat)
    requires pre <= s && k < |pre| && pre[k] == c
    requires forall j :: 0 <= j < k ==> pre[j] != c
    ensures c in s && FirstIndex(s, c) == k
    ensures AfterFirst(s, c) == s[k + 1..]
  {
    assert forall j :: 0 <= j <= k ==> s[j] == pre[j];
    FirstIndexAt(s, c, k);
  }

  /** Python's `s.split(c)`. */
  function Split(s: string, c: char): (parts: seq<string>)
    ensures |parts| >= 1
    ensures c in s ==> |parts| >= 2
    ensures forall k :: 0 <= k < |parts| ==> c !in parts[k]
    decreases |s|
  {
    var i := FirstIndex(s, c);
    if i == |s| then
      assert c !in s;
      [s]
    else
      assert c !in s[..i];
      [s[..i]] + Split(s[i + 1..], c)
  }

  /** Python's `c.join(parts)` for a one-character separator. */
  function Join(parts: seq<string>, c: char): string {
    if |parts| == 0 then ""
    else if |parts| == 1 then parts[0]
    else parts[0] + [c] + Join(parts[1..], c)
  }

  /** Splitting a joined list gives the list back when no part holds the separator. */
  lemma {:induction false} SplitJoin(parts: seq<string>, c: char)
    requires |parts| >= 1
    requires forall k :: 0 <= k < |parts| ==> c !in parts[k]
    ensures Split(Join(parts, c), c) == parts
  {
    var s := Join(parts, c);
    var p := parts[0];
    if |parts| == 1 {
      assert FirstIndex(s, c) == |s|;
    } else {
      var rest := Join(parts[1..], c);
      assert s == p + [c] + rest;
      assert FirstIndex(s, c) == |p| by {
        assert s[|p|] == c;
        assert forall j :: 0 <= j < |p| ==> s[j] == p[j];
        FirstIndexAt(s, c, |p|);
      }
      assert s[..|p|] == p;
      assert s[|p| + 1..] == rest;
      SplitJoin(parts[1..], c);
      assert Split(s, c) == [p] + Split(rest, c);
    }
  }

  /** The first index is where the first `c` stands. */
  lemma FirstIndexAt(s: string, c: char, i: nat)
    requires i < |s| && s[i] == c
    requires forall j :: 0 <= j < i ==> s[j] != c
    ensures FirstIndex(s, c) == i
  {
  }
}
