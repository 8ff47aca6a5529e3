/**
 * The handful of JavaScript string built-ins the ledger's code leans on, each
 * defined as the built-in computes it: `Number.prototype.toString()` for naturals and integers, `parseInt` on
 * decimal text, `String.prototype.trim`, `includes`, `Array.prototype.join` and
 * the `replace(/[^0-9]/g, '')` digit filter.
 */
module JsStrings {
  import opened Wrappers

  // ---------------------------------------------------------------------------
  // Digits and powers

  predicate IsDigit(c: char) {
    '0' <= c <= '9'
  }

  predicate IsDigits(s: string) {
    forall i :: 0 <= i < |s| ==> IsDigit(s[i])
  }

  function DigitChar(d: nat): (c: char)
    requires d < 10
    ensures IsDigit(c) && DigitValue(c) == d
  {
    ['0', '1', '2', '3', '4', '5', '6', '7', '8', '9'][d]
  }

  function DigitValue(c: char): (d: nat)
    requires IsDigit(c)
    ensures d < 10
  {
    (c as int - '0' as int) as nat
  }

  /** Digit i of n counting from the least significant (digit 0 is n % 10). */
  function DigitOf(n: nat, i: nat): (d: nat)
    ensures d < 10
  {
    if i == 0 then n % 10 else DigitOf(n / 10, i - 1)
  }

  /** n with its k least significant decimal digits dropped (n / 10^k). */
  function DropDigits(n: nat, k: nat): nat {
    if k == 0 then n else DropDigits(n / 10, k - 1)
  }

  // ---------------------------------------------------------------------------
  // Number.prototype.toString() and parseInt

  /** The decimal text of a natural number, without leading zeros ("0" for zero). */
  function DecimalString(n: nat): (r: string)
    ensures |r| >= 1 && IsDigits(r)
    ensures r[0] == '0' ==> n == 0
  {
    if n < 10 then [DigitChar(n)] else DecimalString(n / 10) + [DigitChar(n % 10)]
  }

  /** The value of a digit-only text, most significant digit first ("" reads as 0). */
  function ParseDigits(s: string): nat
    requires IsDigits(s)
  {
    if s == [] then 0 else ParseDigits(s[..|s| - 1]) * 10 + DigitValue(s[|s| - 1])
  }

  /** A digit string reads as zero exactly when every digit is 0. */
  lemma {:induction false} ParseDigitsZero(s: string)
    requires IsDigits(s)
    ensures ParseDigits(s) == 0 <==> forall i :: 0 <= i < |s| ==> s[i] == '0'
  {
    if s != [] {
      ParseDigitsZero(s[..|s| - 1]);
    }
  }

  /** `String(i)` for an integer: a minus sign before the magnitude when negative. */
  function IntString(i: int): (r: string)
    ensures r != [] && (r[0] == '-' <==> i < 0)
    ensures i >= 0 ==> IsDigits(r)
    ensures i < 0 ==> r[1..] == DecimalString(-i)
  {
    if i < 0 then "-" + DecimalString(-i) else DecimalString(i)
  }

  /** Reading back the decimal text of n gives n. */
  lemma {:induction false} ParseDecimalString(n: nat)
    ensures ParseDigits(DecimalString(n)) == n
  {
    var s := DecimalString(n);
    if n >= 10 {
      ParseDecimalString(n / 10);
      assert s[..|s| - 1] == DecimalString(n / 10);
    }
  }

  /** Counting from the right, position i of the decimal text holds digit i of n. */
  lemma {:induction false} DecimalDigitAt(n: nat, i: nat)
    requires i < |DecimalString(n)|
    ensures DecimalString(n)[|DecimalString(n)| - 1 - i] == DigitChar(DigitOf(n, i))
  {
    if n >= 10 && i > 0 {
      DecimalDigitAt(n / 10, i - 1);
    }
  }

  /** The decimal text is exactly as long as the number has significant digits. */
  lemma {:induction false} DecimalLength(n: nat, k: nat)
    requires k >= 1
    ensures |DecimalString(n)| <= k <==> DropDigits(n, k) == 0
  {
    if k > 1 {
      DecimalLength(n / 10, k - 1);
    }
  }

  /** A number below 10000 has at most four decimal digits. */
  lemma FourDigitsAtMost(p: nat)
    requires p < 10000
    ensures |DecimalString(p)| <= 4
  {
    DecimalLength(p, 4);
    var a := p / 10;
    var b := a / 10;
    var c := b / 10;
    assert c < 10;
    assert DropDigits(c, 1) == DropDigits(c / 10, 0) == 0;
    assert DropDigits(p, 4) == DropDigits(a, 3) == DropDigits(b, 2) == DropDigits(c, 1);
  }

  /** Digits above the most significant one are zero. */
  lemma {:induction false} DigitAboveLength(n: nat, i: nat)
    requires i >= |DecimalString(n)|
    ensures DigitOf(n, i) == 0
  {
    if i > 0 && n >= 10 {
      DigitAboveLength(n / 10, i - 1);
    } else if i > 0 {
      ZeroHasNoDigits(i - 1);
    }
  }

  /** A proof step of DigitAboveLength: every decimal digit of 0 is 0. */
  lemma {:induction false} ZeroHasNoDigits(i: nat)
    ensures DigitOf(0, i) == 0
  {
    if i > 0 {
      ZeroHasNoDigits(i - 1);
    }
  }

  /**
   * `parseInt(s)` for radix 10: leading white space is skipped, then an
   * optional sign, then the longest run of digits; no digits reads as NaN (None).
   */
  function JsParseInt(s: string): (r: Option<int>)
    ensures (forall i :: 0 <= i < |s| ==> !IsDigit(s[i])) ==> r.None?
    ensures s != [] && IsDigits(s) ==> r == Some(ParseDigits(s) as int)
  {
    var a := LeadingSpaceCount(s);
    NoDigitsRead(s, a);
    DigitsReadWhole(s, a);
    SignedDigits(s[a..])
  }

  /** Without a digit, nothing is read after the leading white space. */
  lemma NoDigitsRead(s: string, a: nat)
    requires a <= |s|
    ensures (forall i :: 0 <= i < |s| ==> !IsDigit(s[i])) ==> SignedDigits(s[a..]).None?
  {
    if forall i :: 0 <= i < |s| ==> !IsDigit(s[i]) {
      var t := s[a..];
      assert forall i :: 0 <= i < |t| ==> t[i] == s[a + i];
      NoDigitRun(t);
      if |t| > 0 {
        NoDigitRun(t[1..]);
      }
    }
  }

  /** A digit string has no leading white space and is read whole. */
  lemma DigitsReadWhole(s: string, a: nat)
    requires a == LeadingSpaceCount(s)
    ensures s != [] && IsDigits(s) ==> SignedDigits(s[a..]) == Some(ParseDigits(s) as int)
  {
    if s != [] && IsDigits(s) {
      assert !IsJsSpace(s[0]);
      assert s[a..] == s;
      LeadingDigitsOfDigits(s);
    }
  }

  /** A text with no digit starts with no run of digits. */
  lemma NoDigitRun(u: string)
    requires forall i :: 0 <= i < |u| ==> !IsDigit(u[i])
    ensures LeadingDigits(u).None?
  {
    if u != [] {
      assert !IsDigit(u[0]);
    }
  }

  /** What `parseInt` reads after the white space: an optional sign, then the digits. */
  function SignedDigits(t: string): Option<int> {
    if |t| > 0 && t[0] == '-' then Negated(LeadingDigits(t[1..]))
    else if |t| > 0 && t[0] == '+' then LeadingDigits(t[1..])
    else LeadingDigits(t)
  }

  function Negated(v: Option<int>): Option<int> {
    if v.Some? then Some(-v.value) else None
  }

  /** The value of the run of digits a text starts with; None when it starts with none. */
  function LeadingDigits(u: string): Option<int> {
    var k := DigitRunLength(u);
    if k == 0 then None else Some(ParseDigits(u[..k]))
  }

  /** Length of the run of digits a text starts with. */
  function DigitRunLength(s: string): (k: nat)
    ensures k <= |s| && IsDigits(s[..k])
    ensures k < |s| ==> !IsDigit(s[k])
  {
    if s == [] || !IsDigit(s[0]) then 0 else 1 + DigitRunLength(s[1..])
  }

  /** The run of digits of a digit-only text is the whole text. */
  lemma {:induction false} DigitRunOfDigits(s: string)
    requires IsDigits(s)
    ensures DigitRunLength(s) == |s|
  {
    if s != [] {
      DigitRunOfDigits(s[1..]);
    }
  }

  /** A non-empty digit string is read whole. */
  lemma LeadingDigitsOfDigits(d: string)
    requires IsDigits(d) && d != []
    ensures LeadingDigits(d) == Some(ParseDigits(d))
    ensures Negated(LeadingDigits(d)) == Some(-(ParseDigits(d) as int))
  {
    DigitRunOfDigits(d);
    assert d[..|d|] == d;
  }

  /** `parseInt(String(i))` gives i back. */
  lemma ParseIntString(i: int)
    ensures JsParseInt(IntString(i)) == Some(i)
  {
    if i < 0 {
      ParseNegatedString(-i);
    } else {
      ParseNatString(i);
    }
  }

  /** `parseInt(String(-m))` gives -m back for a positive m. */
  lemma ParseNegatedString(m: nat)
    requires m > 0
    ensures JsParseInt(IntString(-(m as int))) == Some(-(m as int))
  {
    var d := DecimalString(m);
    ParseDecimalString(m);
    ParseNegative(d);
    assert IntString(-(m as int)) == "-" + d;
  }

  /** `parseInt(String(n))` gives n back for a natural n. */
  lemma ParseNatString(n: nat)
    ensures JsParseInt(DecimalString(n)) == Some(n)
  {
    ParseDecimalString(n);
  }

  /** A minus sign before a digit string is read as the negated value. */
  lemma ParseNegative(d: string)
    requires IsDigits(d) && d != []
    ensures JsParseInt("-" + d) == Some(-(ParseDigits(d) as int))
  {
    NoLeadingSpace("-" + d);
    MinusSign(d);
    LeadingDigitsOfDigits(d);
  }

  /** Text that does not start with white space is read from its first character. */
  lemma NoLeadingSpace(s: string)
    requires s != [] && !IsJsSpace(s[0])
    ensures JsParseInt(s) == SignedDigits(s)
  {
    assert s[0..] == s;
  }

  /** After a minus sign the digits are read and negated. */
  lemma MinusSign(d: string)
    ensures SignedDigits("-" + d) == Negated(LeadingDigits(d))
  {
    assert ("-" + d)[1..] == d;
  }

  // ---------------------------------------------------------------------------
  // replace(/[^0-9]/g, '')

  /** The text with every character other than 0-9 removed. */
  function KeepDigits(s: string): (r: string)
    ensures IsDigits(r) && |r| <= |s|
  {
    if s == [] then []
    else if IsDigit(s[0]) then [s[0]] + KeepDigits(s[1..])
    else KeepDigits(s[1..])
  }

  /** The filter keeps every digit as often as it occurs and drops every other character. */
  lemma {:induction false} KeepDigitsCount(s: string)
    ensures forall c :: multiset(KeepDigits(s))[c] == if IsDigit(c) then multiset(s)[c] else 0
  {
    if s != [] {
      KeepDigitsCount(s[1..]);
      assert s == [s[0]] + s[1..];
    }
  }

  /** The filter drops nothing from digit-only text. */
  lemma {:induction false} KeepDigitsOfDigits(s: string)
    requires IsDigits(s)
    ensures KeepDigits(s) == s
  {
    if s != [] {
      KeepDigitsOfDigits(s[1..]);
    }
  }

  /** The filter works piecewise, so the digits it keeps stay in their order. */
  lemma {:induction false} KeepDigitsConcat(a: string, b: string)
    ensures KeepDigits(a + b) == KeepDigits(a) + KeepDigits(b)
  {
    if a != [] {
      assert (a + b)[0] == a[0];
      assert (a + b)[1..] == a[1..] + b;
      KeepDigitsConcat(a[1..], b);
      if IsDigit(a[0]) {
        assert KeepDigits(a) == [a[0]] + KeepDigits(a[1..]);
        assert KeepDigits(a + b) == [a[0]] + KeepDigits(a[1..] + b);
      }
    } else {
      assert a + b == b;
    }
  }

  // ---------------------------------------------------------------------------
  // trim()

  /** ECMAScript WhiteSpace and LineTerminator code points, which `trim` removes. */
  predicate IsJsSpace(c: char) {
    c == '\t' || c == '\n' || c == '\U{B}' || c == '\U{C}' || c == '\r' || c == ' '
    || c == '\U{A0}' || c == '\U{1680}' || ('\U{2000}' <= c <= '\U{200A}')
    || c == '\U{2028}' || c == '\U{2029}' || c == '\U{202F}' || c == '\U{205F}'
    || c == '\U{3000}' || c == '\U{FEFF}'
  }

  function LeadingSpaceCount(s: string): (k: nat)
    ensures k <= |s|
    ensures forall i :: 0 <= i < k ==> IsJsSpace(s[i])
    ensures k < |s| ==> !IsJsSpace(s[k])
  {
    if s == [] || !IsJsSpace(s[0]) then 0 else 1 + LeadingSpaceCount(s[1..])
  }

  function TrailingSpaceCount(s: string): (k: nat)
    ensures k <= |s|
    ensures forall i :: |s| - k <= i < |s| ==> IsJsSpace(s[i])
    ensures k < |s| ==> !IsJsSpace(s[|s| - 1 - k])
  {
    if s == [] || !IsJsSpace(s[|s| - 1]) then 0 else 1 + TrailingSpaceCount(s[..|s| - 1])
  }

  /** `s.trim()`: the text between the leading and the trailing white space. */
  function Trim(s: string): (r: string)
    ensures r != [] ==> !IsJsSpace(r[0]) && !IsJsSpace(r[|r| - 1])
    ensures r == [] <==> forall i :: 0 <= i < |s| ==> IsJsSpace(s[i])
    ensures exists a, b :: 0 <= a <= b <= |s| && r == s[a..b]
                           && (forall i :: 0 <= i < a ==> IsJsSpace(s[i]))
                           && (forall i :: b <= i < |s| ==> IsJsSpace(s[i]))
  {
    var a := LeadingSpaceCount(s);
    TrimBetween(s, a);
    s[a..|s| - TrailingSpaceCount(s[a..])]
  }

  /** Trimming the text that starts at the first non-white-space position a. */
  lemma TrimBetween(s: string, a: nat)
    requires a <= |s| && (forall i :: 0 <= i < a ==> IsJsSpace(s[i])) && (a < |s| ==> !IsJsSpace(s[a]))
    ensures var b := |s| - TrailingSpaceCount(s[a..]);
            a <= b <= |s|
            && (forall i :: b <= i < |s| ==> IsJsSpace(s[i]))
            && (a < b ==> !IsJsSpace(s[a]) && !IsJsSpace(s[b - 1]))
            && (a == b <==> forall i :: 0 <= i < |s| ==> IsJsSpace(s[i]))
  {
    SpacesAfter(s, a);
    if forall i :: 0 <= i < |s| ==> IsJsSpace(s[i]) {
      AllSpacesTrimEmpty(s, a);
    }
  }

  /** The trailing white space of the text after position a, seen from the whole text. */
  lemma SpacesAfter(s: string, a: nat)
    requires a <= |s|
    ensures var b := |s| - TrailingSpaceCount(s[a..]);
            a <= b <= |s|
            && (forall i :: b <= i < |s| ==> IsJsSpace(s[i]))
            && (a < b ==> !IsJsSpace(s[b - 1]))
  {
    var t := s[a..];
    var k := TrailingSpaceCount(t);
    forall i | |s| - k <= i < |s|
      ensures IsJsSpace(s[i])
    {
      assert s[i] == t[i - a];
    }
    if a < |s| - k {
      assert s[|s| - k - 1] == t[|t| - 1 - k];
    }
  }

  /** Text that is white space from position a on leaves nothing after a to trim to. */
  lemma AllSpacesTrimEmpty(s: string, a: nat)
    requires a == |s|
    ensures TrailingSpaceCount(s[a..]) == 0
  {
    assert s[a..] == [];
  }

  // ---------------------------------------------------------------------------
  // includes() and join()

  /** t occurs in s starting at position i. */
  predicate OccursAt(s: string, t: string, i: int) {
    0 <= i && i + |t| <= |s| && s[i..i + |t|] == t
  }

  /** `s.includes(t)`: t occurs in s as a contiguous piece. */
  function Contains(s: string, t: string): (r: bool)
    ensures r <==> exists i :: OccursAt(s, t, i)
  {
    if t <= s then
      assert OccursAt(s, t, 0);
      true
    else if s == [] then
      assert forall i :: !OccursAt(s, t, i);
      false
    else
      var rest := Contains(s[1..], t);
      assert forall i :: 1 <= i ==> (OccursAt(s, t, i) <==> OccursAt(s[1..], t, i - 1)) by {
        forall i | 1 <= i
          ensures OccursAt(s, t, i) <==> OccursAt(s[1..], t, i - 1)
        {
          if i + |t| <= |s| {
            var a, b := s[i..i + |t|], s[1..][i - 1..i - 1 + |t|];
            assert forall k :: 0 <= k < |t| ==> a[k] == b[k];
            assert a == b;
          }
        }
      }
      assert !OccursAt(s, t, 0);
      assert rest ==> exists i :: OccursAt(s, t, i) by {
        if rest {
          var j :| OccursAt(s[1..], t, j);
          assert OccursAt(s, t, j + 1);
        }
      }
      rest
  }

  /** `parts.join(sep)`. */
  function Join(parts: seq<string>, sep: string): string {
    if parts == [] then ""
    else if |parts| == 1 then parts[0]
    else parts[0] + sep + Join(parts[1..], sep)
  }

  /** The joined text starts with the first part and ends with the last. */
  lemma {:induction false} JoinEnds(parts: seq<string>, sep: string)
    requires parts != []
    ensures var r, last := Join(parts, sep), parts[|parts| - 1];
            |parts[0]| <= |r| && r[..|parts[0]|] == parts[0]
            && |last| <= |r| && r[|r| - |last|..] == last
  {
    if |parts| > 1 {
      JoinEnds(parts[1..], sep);
      var rest := Join(parts[1..], sep);
      assert Join(parts, sep) == parts[0] + sep + rest;
    }
  }
}
