/**
 * The JSON values a request body can carry, with the two Python
 * conversions the request rules apply to them: `int(v)` and `str(v)`.
 */
module Values {
  import opened Wrappers
  import opened Text

  /**
   * A value of the decoded JSON body. A float keeps the text Python's
   * `str()` gives it; an array or object is kept only as that text, since
   * `int()` rejects it whatever it holds and `str()` is all that is read
   * from it.
   */
  datatype Value =
    | Null
    | Bool(b: bool)
    | Int(i: int)
    | Float(x: real, text: string)
    | Str(s: string)
    | Composite(text: string)

  /** Python's `int(x)` on a finite float: truncation toward zero. */
  function Truncate(x: real): (r: int)
    ensures 0.0 <= x ==> 0 <= r && r as real <= x < r as real + 1.0
    ensures x < 0.0 ==> r <= 0 && r as real - 1.0 < x <= r as real
  {
    if 0.0 <= x then x.Floor else -((-x).Floor)
  }

  /**
   * Python's `int(v)`. `None` stands for the `TypeError` (null, array,
   * object) or `ValueError` (text outside the integer grammar) that the
   * validator catches. A `bool` is an `int` in Python, so it converts.
   */
  function ToInt(v: Value): Option<int> {
    match v
    case Null => None
    case Bool(b) => Some(if b then 1 else 0)
    case Int(i) => Some(i)
    case Float(x, _) => Some(Truncate(x))
    case Str(s) => ParseDecimal(Strip(s, IntSpaces))
    case Composite(_) => None
  }

  /**
   * `int(v)` fails exactly for null, arrays and objects, and for text that
   * is not integer text once the whitespace `int()` skips is trimmed.
   */
  lemma ToIntRejects(v: Value)
    ensures ToInt(v).None? <==> v.Null? || v.Composite? || (v.Str? && !IsIntegerText(Strip(v.s, IntSpaces)))
  {}

  /** Python's `str(v)`. */
  function ToStr(v: Value): (r: string)
    ensures v.Str? ==> r == v.s
    ensures v.Null? || v.Bool? || v.Int? ==> r != [] && !IsSpace(r[0])
  {
    match v
    case Null => "None"
    case Bool(b) => if b then "True" else "False"
    case Int(i) => IntToString(i)
    case Float(_, text) => text
    case Str(s) => s
    case Composite(text) => text
  }

  /**
   * `int(str(i)) == i`, also when the text arrives with whitespace around it
   * that `int()` skips.
   */
  lemma IntTextRoundTrip(i: int, lead: string, trail: string)
    requires IsBlank(lead, IntSpaces) && IsBlank(trail, IntSpaces)
    ensures ToInt(Str(lead + ToStr(Int(i)) + trail)) == Some(i)
  {
    var t := IntToString(i);
    assert t[0] == '-' || IsDigit(t[0]);
    assert IsDigit(t[|t| - 1]);
    StripPadded(lead, t, trail, IntSpaces);
    IntToStringRoundTrip(i);
  }

  /** `int(str(i)) == i` for the text exactly as `str()` renders it. */
  lemma IntStrRoundTrip(i: int)
    ensures ToInt(Str(IntToString(i))) == Some(i)
  {
    assert [] + IntToString(i) + [] == IntToString(i);
    IntTextRoundTrip(i, [], []);
  }

  /**
   * `int()` does not skip an information separator in front of integer
   * text: `int("\x1c30")` raises `ValueError`.
   */
  lemma SeparatorRejected(t: string)
    requires IsIntegerText(t)
    ensures ToInt(Str(['\U{1C}'] + t)) == None
  {
    var c := '\U{1C}';
    var u := [c] + t;
    SeparatorClass(c);
    IntegerTextEnds(t);
    assert u[0] == c && u[|u| - 1] == t[|t| - 1];
    assert [] + u + [] == u;
    StripPadded([], u, [], IntSpaces);
    NotIntegerText(u);
  }

  /** `str.strip()`, unlike `int()`, drops an information separator: `"\x1c30".strip() == "30"`. */
  lemma SeparatorStripped(t: string)
    requires IsIntegerText(t)
    ensures Strip(['\U{1C}'] + t, StrSpaces) == t
  {
    var c := '\U{1C}';
    SeparatorClass(c);
    IntegerTextEnds(t);
    assert [c] + t + [] == [c] + t;
    StripPadded([c], t, [], StrSpaces);
  }

  /** U+001C is whitespace to `str.strip()` but neither skipped nor accepted by `int()`. */
  lemma SeparatorClass(c: char)
    requires c == '\U{1C}'
    ensures IsBlank([c], StrSpaces) && !Skips(IntSpaces, c)
    ensures !IsDigit(c) && c != '+' && c != '-'
  {
  }
}
