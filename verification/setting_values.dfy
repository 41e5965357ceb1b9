/** Values handed to the settings of grslicer/settings.py and the three
    `convert` rules that turn them into stored values.

    A value is one of the Python values a caller or a form can supply.
    Parsing text with `float()` or `int()` is not part of this model: the
    two parsers are parameters.  Text is a Python 2 byte string, upper-cased
    byte by byte in the ASCII range. */
module SettingValues {
  import opened Outcomes

  datatype PyValue = PyNone | PyBool(b: bool) | PyInt(i: int) | PyFloat(x: real) | PyStr(s: string)

  /** The exception a conversion raises: `ValueError` for text the parser
      rejects, `TypeError` for None. */
  datatype ConvertError = ValueError | TypeError

  /** `float(text)` and `int(text)`, None where they raise `ValueError`. */
  datatype TextParsers = TextParsers(parseFloat: string -> Option<real>, parseInt: string -> Option<int>)

  // ---------------------------------------------------------------------------
  // Text

  function UpperChar(c: char): char {
    if 'a' <= c <= 'z' then (c as int - 32) as char else c
  }

  function LowerChar(c: char): char {
    if 'A' <= c <= 'Z' then (c as int + 32) as char else c
  }

  /** `str.upper`. */
  function Upper(s: string): (r: string)
    ensures |r| == |s| && forall i | 0 <= i < |s| :: r[i] == UpperChar(s[i])
  {
    seq(|s|, i requires 0 <= i < |s| => UpperChar(s[i]))
  }

  function DigitChar(d: nat): char
    requires d < 10
  {
    ('0' as int + d) as char
  }

  /** The decimal digits of `n`. */
  function Digits(n: nat): string
    decreases n
  {
    if n < 10 then [DigitChar(n)] else Digits(n / 10) + [DigitChar(n % 10)]
  }

  /** `str(n)` for an integer. */
  function DecimalString(n: int): string {
    if n < 0 then "-" + Digits(-n) else Digits(n)
  }

  // ---------------------------------------------------------------------------
  // BoolSetting.convert

  /** The words `BoolSetting.convert` accepts, after upper-casing. */
  const TrueWords: seq<string> := ["TRUE", "1", "T", "Y", "YES"]

  /** `BoolSetting.convert`: a bool is returned unchanged; anything else is
      true iff its upper-cased `str` is one of `TrueWords`.  The `str` of a
      float always holds a decimal point, an exponent or is one of inf and
      nan, so a float is never accepted. */
  function BoolConvert(v: PyValue): (r: bool)
    ensures v.PyBool? ==> r == v.b
    ensures v.PyFloat? || v.PyNone? ==> !r
  {
    match v
    case PyBool(b) => b
    case PyInt(n) => Upper(DecimalString(n)) in TrueWords
    case PyFloat(_) => false
    case PyStr(s) => Upper(s) in TrueWords
    case PyNone =>
      assert Upper("None")[1] == 'O';
      Upper("None") in TrueWords
  }

  /** `s` is `w` with any of its letters possibly in lower case. */
  predicate CaseVariant(s: string, w: string) {
    |s| == |w| && forall i | 0 <= i < |s| :: s[i] == w[i] || s[i] == LowerChar(w[i])
  }

  lemma UpperMatchesWord(s: string, w: string)
    requires forall i | 0 <= i < |w| :: 'A' <= w[i] <= 'Z' || '0' <= w[i] <= '9'
    ensures Upper(s) == w <==> CaseVariant(s, w)
  {
    if Upper(s) == w {
      forall i | 0 <= i < |s|
        ensures s[i] == w[i] || s[i] == LowerChar(w[i])
      {
        assert UpperChar(s[i]) == w[i];
      }
    }
    if CaseVariant(s, w) {
      forall i | 0 <= i < |s|
        ensures Upper(s)[i] == w[i]
      {
        assert s[i] == w[i] || s[i] == LowerChar(w[i]);
      }
    }
  }

  /** Text is accepted exactly when it spells one of TRUE, 1, T, Y, YES in
      any mix of letter case. */
  lemma BoolTextAccepted(s: string)
    ensures BoolConvert(PyStr(s)) <==> exists k | 0 <= k < |TrueWords| :: CaseVariant(s, TrueWords[k])
  {
    forall k | 0 <= k < |TrueWords|
      ensures Upper(s) == TrueWords[k] <==> CaseVariant(s, TrueWords[k])
    {
      UpperMatchesWord(s, TrueWords[k]);
    }
  }

  lemma {:induction false} DigitsAreDigits(n: nat)
    ensures |Digits(n)| >= 1
    ensures forall i | 0 <= i < |Digits(n)| :: '0' <= Digits(n)[i] <= '9'
    ensures |Digits(n)| == 1 <==> n < 10
    decreases n
  {
    if n >= 10 {
      DigitsAreDigits(n / 10);
    }
  }

  /** A numeral starting with a minus sign spells none of the words. */
  lemma SignedNumeralRejected(t: string)
    requires |t| >= 2 && t[0] == '-'
    ensures Upper(t) !in TrueWords
  {
    assert Upper(t)[0] == '-';
  }

  /** A numeral of digits only is accepted only when it is "1". */
  lemma DigitNumeralAccepted(t: string)
    requires |t| >= 1 && forall i | 0 <= i < |t| :: '0' <= t[i] <= '9'
    ensures Upper(t) in TrueWords <==> t == "1"
  {
    assert Upper(t) == t;
    assert t != "TRUE" && t != "T" && t != "Y" && t != "YES" by {
      assert '0' <= t[0] <= '9';
    }
  }

  /** The `str` of an integer is accepted only for 1: no other decimal
      numeral is "1", and none spells a word with letters. */
  lemma BoolIntAccepted(n: int)
    ensures BoolConvert(PyInt(n)) <==> n == 1
  {
    if n < 0 {
      DigitsAreDigits(-n);
      SignedNumeralRejected(DecimalString(n));
    } else {
      DigitsAreDigits(n);
      DigitNumeralAccepted(Digits(n));
      if n >= 10 {
        assert |Digits(n)| >= 2;
      } else {
        assert Digits(n) == [DigitChar(n)];
      }
    }
  }

  // ---------------------------------------------------------------------------
  // RangeSettingInt.convert and RangeSettingFloat.convert

  /** `int(x)` for a float: rounds toward zero. */
  function Truncate(x: real): (r: int)
    ensures x >= 0.0 ==> 0 <= r && r as real <= x < r as real + 1.0
    ensures x < 0.0 ==> r <= 0 && r as real - 1.0 < x <= r as real
  {
    if x >= 0.0 then x.Floor else -((-x).Floor)
  }

  /** `int(v)`. */
  function IntConvert(v: PyValue, parsers: TextParsers): (r: Result<int, ConvertError>)
    ensures v.PyNone? <==> r == Err(TypeError)
    ensures r == Err(ValueError) ==> v.PyStr? && parsers.parseInt(v.s).None?
    ensures v.PyStr? && parsers.parseInt(v.s).Some? ==> r == Ok(parsers.parseInt(v.s).value)
    ensures v.PyInt? ==> r == Ok(v.i)
    ensures v.PyFloat? ==> r == Ok(Truncate(v.x))
    ensures v.PyBool? ==> r == Ok(if v.b then 1 else 0)
  {
    match v
    case PyNone => Err(TypeError)
    case PyBool(b) => Ok(if b then 1 else 0)
    case PyInt(n) => Ok(n)
    case PyFloat(x) => Ok(Truncate(x))
    case PyStr(s) =>
      match parsers.parseInt(s)
      case None => Err(ValueError)
      case Some(n) => Ok(n)
  }

  /** `float(v)`. */
  function FloatConvert(v: PyValue, parsers: TextParsers): (r: Result<real, ConvertError>)
    ensures v.PyNone? <==> r == Err(TypeError)
    ensures r == Err(ValueError) ==> v.PyStr? && parsers.parseFloat(v.s).None?
    ensures v.PyStr? && parsers.parseFloat(v.s).Some? ==> r == Ok(parsers.parseFloat(v.s).value)
    ensures v.PyFloat? ==> r == Ok(v.x)
    ensures v.PyInt? ==> r == Ok(v.i as real)
    ensures v.PyBool? ==> r == Ok(if v.b then 1.0 else 0.0)
  {
    match v
    case PyNone => Err(TypeError)
    case PyBool(b) => Ok(if b then 1.0 else 0.0)
    case PyInt(n) => Ok(n as real)
    case PyFloat(x) => Ok(x)
    case PyStr(s) =>
      match parsers.parseFloat(s)
      case None => Err(ValueError)
      case Some(x) => Ok(x)
  }

  // ---------------------------------------------------------------------------
  // Unit helpers

  /** `cm(v)`: centimetres to millimetres. */
  function Cm(v: real): (r: real)
    ensures r / 10.0 == v
  {
    v * 10.0
  }

  /** `um(v)`: micrometres to millimetres. */
  function Um(v: real): (r: real)
    ensures r * 1000.0 == v
  {
    v / 1000.0
  }
}
