/** Metric values and `safe_convert`, the text-to-number conversion shared
    by every parser of the relay. A value is either a Python `int` or a
    Python `float`; floats are modelled by the exact rational their decimal
    literal denotes. */
module Numbers {
  import opened Results

  datatype Number = Int(i: int) | Float(r: real) {

    /** The value as a real, for comparisons between ints and floats. */
    function AsReal(): real {
      match this
      case Int(i) => i as real
      case Float(r) => r
    }
  }

  datatype NumberError = NotANumber(token: string)

  predicate IsDigit(c: char) {
    '0' <= c <= '9'
  }

  predicate AllDigits(s: string) {
    forall k :: 0 <= k < |s| ==> IsDigit(s[k])
  }

  /** Value of a run of decimal digits; the empty run is 0. */
  function DigitsValue(s: string): nat
    requires AllDigits(s)
  {
    if |s| == 0 then 0
    else DigitsValue(s[..|s| - 1]) * 10 + (s[|s| - 1] as int - '0' as int)
  }

  predicate IsSign(c: char) {
    c == '+' || c == '-'
  }

  /** Splits an optional leading sign off a literal: the sign factor and
      the unsigned rest. */
  function Unsigned(s: string): (string, int) {
    if |s| > 0 && IsSign(s[0]) then (s[1..], if s[0] == '-' then -1 else 1)
    else (s, 1)
  }

  /** The most digits `int()` reads from a decimal string. Python 3.11
      (and the 3.9.14 and 3.10.7 security releases) raises `ValueError`
      beyond this default of `sys.get_int_max_str_digits()`. */
  const MaxIntDigits: nat := 4300

  /** The integer literals `int()` accepts here: an optional sign followed
      by one to `MaxIntDigits` ASCII digits. */
  predicate IsIntLiteral(s: string) {
    var (body, _) := Unsigned(s);
    0 < |body| <= MaxIntDigits && AllDigits(body)
  }

  /** The decimal literals `float()` accepts here: an optional sign, then
      digits with at most one decimal point and at least one digit. */
  predicate IsFloatLiteral(s: string) {
    var (body, _) := Unsigned(s);
    var dot := if '.' in body then FirstDot(body) else |body|;
    var whole := body[..dot];
    var frac := if dot < |body| then body[dot + 1..] else "";
    && AllDigits(whole) && AllDigits(frac) && |whole| + |frac| > 0
  }

  function FirstDot(s: string): (k: nat)
    requires '.' in s
    ensures k < |s| && s[k] == '.' && '.' !in s[..k]
  {
    if s[0] == '.' then 0
    else
      assert s[1..][..FirstDot(s[1..])] == s[1..FirstDot(s[1..]) + 1];
      FirstDot(s[1..]) + 1
  }

  function Pow10(n: nat): (p: nat)
    ensures p >= 1
  {
    if n == 0 then 1 else 10 * Pow10(n - 1)
  }

  /** `int(s)`, or `None` where Python raises `ValueError`. */
  function ParseInt(s: string): (r: Option<int>)
    ensures r.Some? <==> IsIntLiteral(s)
    ensures r.Some? && (|s| == 0 || s[0] != '-') ==> r.value >= 0
    ensures r.Some? && |s| > 0 && s[0] == '-' ==> r.value <= 0
  {
    var (body, sign) := Unsigned(s);
    if 0 < |body| <= MaxIntDigits && AllDigits(body) then Some(sign * DigitsValue(body)) else None
  }

  /** `float(s)`, or `None` where Python raises `ValueError`. */
  function ParseFloat(s: string): (r: Option<real>)
    ensures r.Some? <==> IsFloatLiteral(s)
  {
    var (body, sign) := Unsigned(s);
    var dot := if '.' in body then FirstDot(body) else |body|;
    var whole := body[..dot];
    var frac := if dot < |body| then body[dot + 1..] else "";
    if AllDigits(whole) && AllDigits(frac) && |whole| + |frac| > 0 then
      Some(sign as real * (DigitsValue(whole) as real + DigitsValue(frac) as real / Pow10(|frac|) as real))
    else None
  }

  /** `safe_convert`: the empty string is the integer 0; otherwise `int()`
      is tried first and `float()` only when it fails, and the error of
      `float()` propagates. */
  function SafeConvert(s: string): (r: Result<Number, NumberError>)
    ensures s == "" ==> r == Ok(Int(0))
    ensures r.Ok? && r.value.Int? <==> s == "" || IsIntLiteral(s)
    ensures r.Ok? && r.value.Float? <==> s != "" && !IsIntLiteral(s) && IsFloatLiteral(s)
    ensures r.Err? <==> s != "" && !IsIntLiteral(s) && !IsFloatLiteral(s)
    ensures r.Err? ==> r.error == NotANumber(s)
  {
    if s == "" then Ok(Int(0))
    else match ParseInt(s)
      case Some(i) => Ok(Int(i))
      case None =>
        match ParseFloat(s)
        case Some(x) => Ok(Float(x))
        case None => Err(NotANumber(s))
  }

  /** Decimal digits of a natural number, most significant first. */
  function NatToString(n: nat): (s: string)
    ensures |s| > 0 && AllDigits(s)
    ensures DigitsValue(s) == n
  {
    var d := ['0' + ((n % 10) as char)];
    if n < 10 then d
    else
      var s := NatToString(n / 10) + d;
      assert s[..|s| - 1] == NatToString(n / 10);
      s
  }

  /** How Python's `str()` renders an int. */
  function IntToString(i: int): (s: string)
    ensures |s| > 0 && IsDigit(s[|s| - 1])
    ensures forall k :: 0 <= k < |s| ==> IsDigit(s[k]) || (k == 0 && s[k] == '-')
  {
    if i < 0 then "-" + NatToString(-i) else NatToString(i)
  }

  /** Whether `int()` reads back the decimal rendering of `i`: its digits,
      without the sign, number at most `MaxIntDigits`. */
  predicate IntFits(i: int) {
    |NatToString(if i < 0 then -i else i)| <= MaxIntDigits
  }

  /** A natural number has at most `k` digits exactly when it is below
      `10^k`. */
  lemma {:induction false} NatToStringLength(n: nat, k: nat)
    requires k > 0
    ensures |NatToString(n)| <= k <==> n < Pow10(k)
    decreases n
  {
    if n >= 10 {
      assert |NatToString(n)| == |NatToString(n / 10)| + 1;
      if k == 1 {
        assert Pow10(1) == 10;
      } else {
        NatToStringLength(n / 10, k - 1);
        assert Pow10(k) == 10 * Pow10(k - 1);
      }
    } else {
      assert Pow10(k) == 10 * Pow10(k - 1);
    }
  }

  /** An integer fits exactly when its magnitude is below `10^MaxIntDigits`. */
  lemma IntFitsBound(i: int)
    ensures IntFits(i) <==> -(Pow10(MaxIntDigits) as int) < i < Pow10(MaxIntDigits)
  {
    NatToStringLength(if i < 0 then -i else i, MaxIntDigits);
  }

  /** What `safe_convert` makes of the rendering of `i`: the int itself
      while `int()` accepts that many digits, otherwise the float of the
      same value. */
  function ReadBack(i: int): (n: Number)
    ensures n.AsReal() == i as real
    ensures n.Int? <==> IntFits(i)
  {
    if IntFits(i) then Int(i) else Float(i as real)
  }

  /** Every rendered integer is read back by `safe_convert` with its value.
      It comes back as that same int while its digits fit the limit of
      `int()`, and as a float beyond it. */
  lemma SafeConvertIntToString(i: int)
    ensures SafeConvert(IntToString(i)) == Ok(ReadBack(i))
    ensures IntFits(i) ==> SafeConvert(IntToString(i)) == Ok(Int(i))
    ensures !IntFits(i) ==> SafeConvert(IntToString(i)) == Ok(Float(i as real))
  {
    var s := IntToString(i);
    var body := NatToString(if i < 0 then -i else i);
    assert Unsigned(s) == (body, if i < 0 then -1 else 1);
    if !IntFits(i) {
      assert body[..|body|] == body;
    }
  }

  /** A decimal literal with a fraction is read as the float it denotes. */
  lemma SafeConvertDecimal()
    ensures SafeConvert("2.5") == Ok(Float(2.5))
  {
    assert Unsigned("2.5") == ("2.5", 1);
    assert FirstDot("2.5") == 1;
    assert "2.5"[..1] == "2" && "2.5"[2..] == "5";
    assert DigitsValue("2") == 2 by { assert "2"[..0] == ""; }
    assert DigitsValue("5") == 5 by { assert "5"[..0] == ""; }
  }

  /** The whole part may be omitted, and a sign applies to the float. */
  lemma SafeConvertBareFraction()
    ensures SafeConvert("-.5") == Ok(Float(-0.5))
  {
    assert Unsigned("-.5") == (".5", -1);
    assert FirstDot(".5") == 0;
    assert ".5"[..0] == "" && ".5"[1..] == "5";
    assert DigitsValue("5") == 5 by { assert "5"[..0] == ""; }
  }

  /** Text that is neither literal is an error carrying the text. */
  lemma SafeConvertRejects()
    ensures SafeConvert("abc") == Err(NotANumber("abc"))
  {
    assert Unsigned("abc") == ("abc", 1);
    assert !IsDigit('a');
    assert "abc"[..3] == "abc";
  }

  /** A leading plus sign is accepted by `int()`. */
  lemma SafeConvertPlusSign()
    ensures SafeConvert("+7") == Ok(Int(7))
  {
    assert Unsigned("+7") == ("7", 1);
    assert DigitsValue("7") == 7 by { assert "7"[..0] == ""; }
  }
}
