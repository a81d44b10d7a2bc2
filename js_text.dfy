/** The JavaScript string operations the application relies on: `split` with a
    one-character separator, `Number(...)` and `parseInt(...)` on decimal text,
    and the two-digit rendering produced by `Date.prototype.toTimeString`. */
module JsText {
  import opened Wrappers

  /** `parts.join(sep)`: the parts with `sep` between consecutive ones. */
  function Join(parts: seq<string>, sep: char): string
  {
    if |parts| == 0 then ""
    else if |parts| == 1 then parts[0]
    else parts[0] + [sep] + Join(parts[1..], sep)
  }

  /** `s.split(sep)`: the maximal pieces of `s` that do not contain `sep`,
      in order; joining them back with `sep` gives `s` again. */
  function Split(s: string, sep: char): (parts: seq<string>)
    ensures |parts| >= 1
    ensures Join(parts, sep) == s
    ensures forall i :: 0 <= i < |parts| ==> sep !in parts[i]
    decreases |s|
  {
    if |s| == 0 then [""]
    else
      var rest := Split(s[1..], sep);
      if s[0] == sep then
        assert ([""] + rest)[1..] == rest;
        [""] + rest
      else
        var parts := [[s[0]] + rest[0]] + rest[1..];
        assert parts[1..] == rest[1..];
        parts
  }

  /** Splitting with `sep` undoes joining with `sep`, provided no part
      contains the separator. */
  lemma {:induction false} SplitOfJoin(parts: seq<string>, sep: char)
    requires |parts| >= 1
    requires forall i :: 0 <= i < |parts| ==> sep !in parts[i]
    ensures Split(Join(parts, sep), sep) == parts
  {
    SplitUnique(Join(parts, sep), parts, sep);
  }

  /** Any separator-free decomposition of `s` is the one `Split` finds. */
  lemma {:induction false} SplitUnique(s: string, parts: seq<string>, sep: char)
    requires |parts| >= 1 && Join(parts, sep) == s
    requires forall i :: 0 <= i < |parts| ==> sep !in parts[i]
    ensures Split(s, sep) == parts
    decreases |s|
  {
    if |parts| == 1 {
      SplitWithoutSeparator(s, sep);
    } else {
      var p0 := parts[0];
      assert s == p0 + [sep] + Join(parts[1..], sep);
      if p0 == "" {
        assert s[1..] == Join(parts[1..], sep);
        SplitUnique(s[1..], parts[1..], sep);
        assert parts == [""] + parts[1..];
      } else {
        assert s[0] == p0[0] && p0[0] in p0;
        var tail := [p0[1..]] + parts[1..];
        assert tail[1..] == parts[1..];
        assert Join(tail, sep) == s[1..];
        forall i | 0 <= i < |tail| ensures sep !in tail[i] {
          if i == 0 {
            assert forall c :: c in p0[1..] ==> c in p0;
          } else {
            assert tail[i] == parts[i];
          }
        }
        SplitUnique(s[1..], tail, sep);
        assert [s[0]] + tail[0] == p0;
        assert parts == [p0] + tail[1..];
      }
    }
  }

  /** A string without the separator splits into itself alone. */
  lemma {:induction false} SplitWithoutSeparator(s: string, sep: char)
    requires sep !in s
    ensures Split(s, sep) == [s]
    decreases |s|
  {
    if |s| > 0 {
      assert s[0] in s;
      assert forall c :: c in s[1..] ==> c in s;
      SplitWithoutSeparator(s[1..], sep);
      assert [s[0]] + s[1..] == s;
    }
  }

  predicate IsDigit(c: char) { '0' <= c <= '9' }

  predicate AllDigits(s: string) { forall i :: 0 <= i < |s| ==> IsDigit(s[i]) }

  /** The value of a string of decimal digits, most significant first. */
  function DigitsValue(s: string): nat
    requires AllDigits(s)
    decreases |s|
  {
    if |s| == 0 then 0 else 10 * DigitsValue(s[..|s| - 1]) + (s[|s| - 1] as int - '0' as int)
  }

  function DigitChar(d: nat): (c: char)
    requires d < 10
    ensures IsDigit(c) && c as int - '0' as int == d
  {
    ('0' as int + d) as char
  }

  /** `n.toString()` for a non-negative integer: shortest decimal digits. */
  function NatToString(n: nat): (s: string)
    ensures |s| >= 1 && AllDigits(s) && DigitsValue(s) == n
    decreases n
  {
    if n < 10 then
      var s := [DigitChar(n)];
      assert s[..0] == [];
      s
    else
      var s := NatToString(n / 10) + [DigitChar(n % 10)];
      assert s[..|s| - 1] == NatToString(n / 10);
      s
  }

  /** A decimal numeral as `Number` accepts it: digits, optionally after one
      `+` or `-` sign (a sign needs at least one digit after it). */
  predicate SignedDigits(s: string)
  {
    AllDigits(s) || (|s| >= 2 && (s[0] == '+' || s[0] == '-') && AllDigits(s[1..]))
  }

  /** `Number(s)` on a string: the empty string is 0, a run of decimal digits
      is its value, a sign before the digits gives them that sign, and
      anything else is NaN (`None`). */
  function ToNumber(s: string): (r: Option<int>)
    ensures r.Some? <==> SignedDigits(s)
    ensures r.Some? && AllDigits(s) ==> r.value == DigitsValue(s)
    ensures r.Some? && !AllDigits(s) ==> r.value == (if s[0] == '-' then -1 else 1) * DigitsValue(s[1..])
    ensures r.Some? && r.value < 0 ==> s[0] == '-'
  {
    if AllDigits(s) then Some(DigitsValue(s))
    else if |s| >= 2 && (s[0] == '+' || s[0] == '-') && AllDigits(s[1..]) then
      var value: int := DigitsValue(s[1..]);
      if s[0] == '-' then Some(-value) else Some(value)
    else None
  }

  /** The longest prefix of `s` made of decimal digits. */
  function LeadingDigits(s: string): (d: string)
    ensures AllDigits(d) && d <= s
    ensures |d| < |s| ==> !IsDigit(s[|d|])
    decreases |s|
  {
    if |s| == 0 || !IsDigit(s[0]) then "" else [s[0]] + LeadingDigits(s[1..])
  }

  /** `parseInt(s)`: an optional sign followed by the leading decimal digits;
      NaN (`None`) when there are none. */
  function ParseInt(s: string): (r: Option<int>)
    ensures s == "" ==> r.None?
    ensures r.Some? && r.value < 0 ==> s[0] == '-'
  {
    var signed := |s| > 0 && (s[0] == '-' || s[0] == '+');
    var digits := LeadingDigits(if signed then s[1..] else s);
    if digits == "" then None
    else
      var value: int := DigitsValue(digits);
      if signed && s[0] == '-' then Some(-value) else Some(value)
  }

  /** A string of digits is its own longest digit prefix. */
  lemma {:induction false} LeadingDigitsOfDigits(s: string)
    requires AllDigits(s)
    ensures LeadingDigits(s) == s
    decreases |s|
  {
    if |s| > 0 {
      LeadingDigitsOfDigits(s[1..]);
      assert [s[0]] + s[1..] == s;
    }
  }

  /** On a non-empty string of digits `parseInt` and `Number` agree (they
      differ on `""`: NaN against 0). */
  lemma ParseIntAgreesWithNumber(s: string)
    requires s != "" && AllDigits(s)
    ensures ParseInt(s) == ToNumber(s)
  {
    LeadingDigitsOfDigits(s);
    assert IsDigit(s[0]);
  }

  /** On a signed numeral, such as `"-5"` or `"+5"`, `parseInt` and `Number`
      agree too. */
  lemma ParseIntAgreesWithSignedNumber(s: string)
    requires |s| >= 2 && (s[0] == '+' || s[0] == '-') && AllDigits(s[1..])
    ensures ParseInt(s) == ToNumber(s)
  {
    LeadingDigitsOfDigits(s[1..]);
    assert !IsDigit(s[0]);
  }

  /** `parseInt(n.toString())` and `Number(n.toString())` both give `n` back. */
  lemma ParseIntOfNatToString(n: nat)
    ensures ParseInt(NatToString(n)) == Some(n)
    ensures ToNumber(NatToString(n)) == Some(n)
  {
    ParseIntAgreesWithNumber(NatToString(n));
  }

  /** Two-digit, zero-padded decimal rendering of `n`, as in `"08"`. */
  function Pad2(n: nat): (s: string)
    requires n < 100
    ensures |s| == 2 && AllDigits(s)
  {
    [DigitChar(n / 10), DigitChar(n % 10)]
  }

  /** `Number` reads a zero-padded two-digit field back as its value. */
  lemma ToNumberOfPad2(n: nat)
    requires n < 100
    ensures ToNumber(Pad2(n)) == Some(n)
  {
    var s := Pad2(n);
    assert s[..1][..0] == [];
    assert s[..|s| - 1] == s[..1];
    assert DigitsValue(s[..1]) == n / 10;
    assert DigitsValue(s) == 10 * (n / 10) + n % 10;
  }
}
