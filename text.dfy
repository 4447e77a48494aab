/**
 * The Python string built-ins the request rules rely on: `str.isspace`,
 * `str.strip`, `", ".join(...)`, the decimal text of an `int` (`str(n)`)
 * and the decimal grammar that `int(text)` accepts.
 */
module Text {
  import opened Wrappers

  /**
   * Python's `str.isspace()` for one character: the Unicode whitespace set.
   * No whitespace character can be part of integer text.
   */
  predicate IsSpace(c: char)
    ensures IsSpace(c) ==> !IsDigit(c) && c != '+' && c != '-'
  {
    var n := c as int;
    || 0x09 <= n <= 0x0D
    || 0x1C <= n <= 0x20
    || n == 0x85 || n == 0xA0 || n == 0x1680
    || 0x2000 <= n <= 0x200A
    || n == 0x2028 || n == 0x2029 || n == 0x202F || n == 0x205F || n == 0x3000
  }

  /**
   * Which characters a trim skips. `str.strip()` skips every `isspace`
   * character; `int(text)` skips the same set except the ASCII information
   * separators U+001C to U+001F, which it rejects.
   */
  datatype Spaces = StrSpaces | IntSpaces

  predicate Skips(sp: Spaces, c: char) {
    IsSpace(c) && (sp == StrSpaces || !(0x1C <= c as int <= 0x1F))
  }

  /** True when `s` holds only characters that `sp` skips (so also for ""). */
  predicate IsBlank(s: string, sp: Spaces) {
    forall i :: 0 <= i < |s| ==> Skips(sp, s[i])
  }

  /** `s.lstrip()`: drops the leading whitespace and nothing else. */
  function LStrip(s: string, sp: Spaces): (r: string)
    ensures |r| <= |s| && r == s[|s| - |r|..]
    ensures forall i :: 0 <= i < |s| - |r| ==> Skips(sp, s[i])
    ensures r != [] ==> !Skips(sp, r[0])
    decreases |s|
  {
    if s != [] && Skips(sp, s[0]) then LStrip(s[1..], sp) else s
  }

  /** `s.rstrip()`: drops the trailing whitespace and nothing else. */
  function RStrip(s: string, sp: Spaces): (r: string)
    ensures |r| <= |s| && r == s[..|r|]
    ensures forall i :: |r| <= i < |s| ==> Skips(sp, s[i])
    ensures r != [] ==> !Skips(sp, r[|r| - 1])
    decreases |s|
  {
    if s != [] && Skips(sp, s[|s| - 1]) then RStrip(s[..|s| - 1], sp) else s
  }

  /** `r` neither starts nor ends with a character that `sp` skips. */
  predicate Unpadded(r: string, sp: Spaces) {
    r != [] ==> !Skips(sp, r[0]) && !Skips(sp, r[|r| - 1])
  }

  /** `r` occurs in `s` starting at index `i`. */
  predicate SliceAt(s: string, i: int, r: string) {
    0 <= i <= |s| - |r| && r == s[i..i + |r|]
  }

  /** `r` occurs in `s` at index `i`, and everything of `s` around it is skipped whitespace. */
  predicate TrimmedAt(s: string, i: int, r: string, sp: Spaces) {
    && SliceAt(s, i, r)
    && (forall j :: 0 <= j < i ==> Skips(sp, s[j]))
    && (forall j :: i + |r| <= j < |s| ==> Skips(sp, s[j]))
  }

  /**
   * `s.strip()`: a slice of `s` that neither starts nor ends with
   * whitespace, and every character cut away on either side is whitespace;
   * the result is empty exactly when `s` is blank.
   */
  function Strip(s: string, sp: Spaces): (r: string)
    ensures Unpadded(r, sp)
    ensures r == [] <==> IsBlank(s, sp)
    ensures exists i :: TrimmedAt(s, i, r, sp)
  {
    var l := LStrip(s, sp);
    var r := RStrip(l, sp);
    StripShape(s, l, r, sp);
    r
  }

  /** What `rstrip` keeps of what `lstrip` keeps has the shape `strip` promises. */
  lemma StripShape(s: string, l: string, r: string, sp: Spaces)
    requires l == LStrip(s, sp) && r == RStrip(l, sp)
    ensures Unpadded(r, sp)
    ensures r == [] <==> IsBlank(s, sp)
    ensures exists i :: TrimmedAt(s, i, r, sp)
  {
    TrimmedSlice(s, l, r, sp);
    StripEnds(l, r, sp);
    StripBlank(s, l, sp);
  }

  /**
   * A prefix `r` of a suffix `l` of `s`, where what precedes `l` and what
   * follows `r` in `l` are skipped, is a trimmed slice of `s`.
   */
  lemma TrimmedSlice(s: string, l: string, r: string, sp: Spaces)
    requires |l| <= |s| && l == s[|s| - |l|..]
    requires forall j :: 0 <= j < |s| - |l| ==> Skips(sp, s[j])
    requires |r| <= |l| && r == l[..|r|]
    requires forall k :: |r| <= k < |l| ==> Skips(sp, l[k])
    ensures TrimmedAt(s, |s| - |l|, r, sp)
  {
    var i := |s| - |l|;
    forall j | i + |r| <= j < |s| ensures Skips(sp, s[j]) {
      assert s[j] == l[j - i];
    }
  }

  /** `rstrip` after `lstrip` leaves no whitespace at either end. */
  lemma StripEnds(l: string, r: string, sp: Spaces)
    requires l != [] ==> !Skips(sp, l[0])
    requires r == RStrip(l, sp)
    ensures Unpadded(r, sp)
  {
    if r != [] {
      assert r[0] == l[0];
    }
  }

  /** `rstrip` after `lstrip` gives "" exactly for blank input. */
  lemma StripBlank(s: string, l: string, sp: Spaces)
    requires l == LStrip(s, sp)
    ensures RStrip(l, sp) == [] <==> IsBlank(s, sp)
  {
    var r := RStrip(l, sp);
    if r == [] {
      assert l == [];
    } else {
      assert s[|s| - |l|] == l[0];
    }
  }

  /** Stripping a string that has already been stripped changes nothing. */
  lemma StripIdempotent(s: string, sp: Spaces)
    ensures Strip(Strip(s, sp), sp) == Strip(s, sp)
  {}

  /** `lstrip` removes exactly a blank prefix that is followed by a non-space character. */
  lemma {:induction false} LStripPadded(lead: string, u: string, sp: Spaces)
    requires IsBlank(lead, sp) && u != [] && !Skips(sp, u[0])
    ensures LStrip(lead + u, sp) == u
  {
    if lead != [] {
      assert (lead + u)[1..] == lead[1..] + u;
      LStripPadded(lead[1..], u, sp);
    } else {
      assert lead + u == u;
    }
  }

  /** `rstrip` removes exactly a blank suffix that follows a non-space character. */
  lemma {:induction false} RStripPadded(u: string, trail: string, sp: Spaces)
    requires IsBlank(trail, sp) && u != [] && !Skips(sp, u[|u| - 1])
    ensures RStrip(u + trail, sp) == u
  {
    if trail != [] {
      var t' := trail[..|trail| - 1];
      assert (u + trail)[..|u + trail| - 1] == u + t';
      RStripPadded(u, t', sp);
    } else {
      assert u + trail == u;
    }
  }

  /** `strip` gives back text with no whitespace at its ends from any blank padding of it. */
  lemma StripPadded(lead: string, t: string, trail: string, sp: Spaces)
    requires IsBlank(lead, sp) && IsBlank(trail, sp)
    requires t != [] && !Skips(sp, t[0]) && !Skips(sp, t[|t| - 1])
    ensures Strip(lead + t + trail, sp) == t
  {
    assert lead + t + trail == lead + (t + trail);
    LStripPadded(lead, t + trail, sp);
    RStripPadded(t, trail, sp);
  }

  /** Python's `sep.join(parts)`. */
  function Join(sep: string, parts: seq<string>): (r: string)
    ensures parts == [] ==> r == []
    ensures parts != [] ==> |r| == TotalLength(parts) + |sep| * (|parts| - 1)
    ensures parts != [] ==> r[..|parts[0]|] == parts[0]
  {
    if parts == [] then []
    else if |parts| == 1 then parts[0]
    else parts[0] + sep + Join(sep, parts[1..])
  }

  /** The summed length of a list of strings. */
  function TotalLength(parts: seq<string>): nat {
    if parts == [] then 0 else |parts[0]| + TotalLength(parts[1..])
  }

  /**
   * Joining one more part appends the separator and that part. With
   * `Join(sep, [p]) == p` this fixes every join.
   */
  lemma {:induction false} JoinAppend(sep: string, parts: seq<string>, p: string)
    requires parts != []
    ensures Join(sep, [p]) == p
    ensures Join(sep, parts + [p]) == Join(sep, parts) + sep + p
  {
    if |parts| > 1 {
      assert (parts + [p])[1..] == parts[1..] + [p];
      JoinAppend(sep, parts[1..], p);
    } else {
      assert (parts + [p])[1..] == [p];
    }
  }

  predicate IsDigit(c: char) {
    '0' <= c <= '9'
  }

  predicate AllDigits(s: string) {
    forall i :: 0 <= i < |s| ==> IsDigit(s[i])
  }

  /** An optional `+` or `-` followed by one or more ASCII digits. */
  predicate IsIntegerText(s: string) {
    || (s != [] && AllDigits(s))
    || (|s| > 1 && (s[0] == '+' || s[0] == '-') && AllDigits(s[1..]))
  }

  /** Integer text starts with a sign or a digit and ends with a digit. */
  lemma IntegerTextEnds(s: string)
    requires IsIntegerText(s)
    ensures s[0] == '+' || s[0] == '-' || IsDigit(s[0])
    ensures IsDigit(s[|s| - 1])
  {
    if !AllDigits(s) {
      assert s[1..][|s| - 2] == s[|s| - 1];
    }
  }

  /** Text that starts with neither a sign nor a digit is not integer text. */
  lemma NotIntegerText(s: string)
    requires s != [] && s[0] != '+' && s[0] != '-' && !IsDigit(s[0])
    ensures !IsIntegerText(s)
  {
  }

  function DigitChar(d: nat): (c: char)
    requires d < 10
    ensures IsDigit(c) && c as int - '0' as int == d
  {
    ('0' as int + d) as char
  }

  /** The decimal digits of `n`, most significant first, with no leading zero. */
  function Decimal(n: nat): (r: string)
    ensures r != [] && AllDigits(r)
    ensures |r| > 1 ==> r[0] != '0'
  {
    if n < 10 then [DigitChar(n)] else Decimal(n / 10) + [DigitChar(n % 10)]
  }

  /**
   * Python's `str(i)` for an `int`: integer text with a minus sign exactly
   * for negative numbers and no leading zero.
   */
  function IntToString(i: int): (r: string)
    ensures IsIntegerText(r) && r[0] != '+'
    ensures r[0] == '-' <==> i < 0
    ensures i >= 0 && |r| > 1 ==> r[0] != '0'
    ensures i < 0 ==> r[1] != '0'
  {
    if i < 0 then "-" + Decimal(-i) else Decimal(i)
  }

  /** The number a non-empty run of ASCII digits denotes (leading zeros allowed). */
  function DigitsValue(s: string): nat
    requires AllDigits(s)
  {
    if s == [] then 0
    else DigitsValue(s[..|s| - 1]) * 10 + (s[|s| - 1] as int - '0' as int)
  }

  /**
   * The grammar `int(text)` accepts once the text has been stripped.
   * `None` stands for the `ValueError` Python raises on anything else.
   */
  function ParseDecimal(s: string): (r: Option<int>)
    ensures r.Some? <==> IsIntegerText(s)
  {
    if s != [] && (s[0] == '+' || s[0] == '-') then
      var digits := s[1..];
      if digits != [] && AllDigits(digits) then
        Some(if s[0] == '-' then -(DigitsValue(digits) as int) else DigitsValue(digits))
      else None
    else if s != [] && AllDigits(s) then Some(DigitsValue(s))
    else None
  }

  lemma {:induction false} DecimalValue(n: nat)
    ensures DigitsValue(Decimal(n)) == n
  {
    if n >= 10 {
      var s := Decimal(n);
      assert s[..|s| - 1] == Decimal(n / 10);
      DecimalValue(n / 10);
    }
  }

  /** `int(str(i)) == i`: the decimal text of any integer parses back to it. */
  lemma IntToStringRoundTrip(i: int)
    ensures ParseDecimal(IntToString(i)) == Some(i)
  {
    if i < 0 {
      assert IntToString(i)[1..] == Decimal(-i);
      DecimalValue(-i);
    } else {
      DecimalValue(i);
    }
  }

  /** A `+` sign leaves the value of unsigned digits unchanged, and a `-` negates it. */
  lemma ParseSigned(d: string)
    requires d != [] && AllDigits(d)
    ensures ParseDecimal("+" + d) == ParseDecimal(d)
    ensures ParseDecimal("-" + d) == Some(-ParseDecimal(d).value)
  {
    assert ("+" + d)[1..] == d;
    assert ("-" + d)[1..] == d;
  }

  /** A leading zero does not change the value of digits. */
  lemma {:induction false} LeadingZero(d: string)
    requires AllDigits(d)
    ensures AllDigits("0" + d) && DigitsValue("0" + d) == DigitsValue(d)
  {
    if d != [] {
      var z := "0" + d;
      assert z[..|z| - 1] == "0" + d[..|d| - 1];
      LeadingZero(d[..|d| - 1]);
    }
  }

  /** Digits that start with a non-zero digit denote a positive number. */
  lemma {:induction false} LeadingNonZero(d: string)
    requires d != [] && AllDigits(d) && d[0] != '0'
    ensures DigitsValue(d) > 0
  {
    if |d| > 1 {
      LeadingNonZero(d[..|d| - 1]);
    }
  }

  /**
   * Digits without a leading zero are exactly the decimal text of their
   * value. With `LeadingZero`, `ParseSigned` and `IntToStringRoundTrip`
   * this fixes the value of every text `int()` accepts.
   */
  lemma {:induction false} CanonicalDigits(d: string)
    requires d != [] && AllDigits(d) && (|d| > 1 ==> d[0] != '0')
    ensures Decimal(DigitsValue(d)) == d
  {
    if |d| > 1 {
      var p := d[..|d| - 1];
      LeadingNonZero(p);
      CanonicalDigits(p);
      var n := DigitsValue(d);
      assert n / 10 == DigitsValue(p) && n % 10 == d[|d| - 1] as int - '0' as int;
      assert d == p + [d[|d| - 1]];
    }
  }
}
