/** `ValueUtils` (src/util.py): total, type-dispatching coercions of loosely typed
    request fields. Text is handled on the ASCII range: whitespace is Python's
    whitespace below U+0080, digits are '0'..'9', and lower-casing folds 'A'..'Z'. */
module Util {
  import opened Values

  // ---------------------------------------------------------------- text

  /** `str.isspace()` on one character of the ASCII range. */
  predicate IsSpace(c: char)
  {
    c == ' ' || c == '\t' || c == '\n' || c == '\r' || c == '\U{000B}' || c == '\U{000C}'
    || ('\U{001C}' <= c <= '\U{001F}')
  }

  predicate IsBlank(s: string)
  {
    forall i :: 0 <= i < |s| ==> IsSpace(s[i])
  }

  /** Leading whitespace removed. */
  function TrimStart(s: string): (r: string)
    ensures |r| <= |s| && r == s[|s| - |r|..]
    ensures forall i :: 0 <= i < |s| - |r| ==> IsSpace(s[i])
    ensures r != [] ==> !IsSpace(r[0])
  {
    if s != [] && IsSpace(s[0]) then TrimStart(s[1..]) else s
  }

  /** Trailing whitespace removed. */
  function TrimEnd(s: string): (r: string)
    ensures |r| <= |s| && r == s[..|r|]
    ensures forall i :: |r| <= i < |s| ==> IsSpace(s[i])
    ensures r != [] ==> !IsSpace(r[|r| - 1])
  {
    if s != [] && IsSpace(s[|s| - 1]) then TrimEnd(s[..|s| - 1]) else s
  }

  /** `str.strip()`. */
  function Strip(s: string): string
  {
    TrimEnd(TrimStart(s))
  }

  /** `s.strip()` is empty exactly when `s` is whitespace only. */
  lemma StripEmpty(s: string)
    ensures Strip(s) == [] <==> IsBlank(s)
  {
    var t := TrimStart(s);
    if Strip(s) == [] {
      assert t == [];
    } else {
      var r := Strip(s);
      assert r[0] == t[0] == s[|s| - |t|];
    }
  }

  /** Text that begins and ends with a non-space is its own `strip()`. */
  lemma StripUnchanged(s: string)
    requires s != [] && !IsSpace(s[0]) && !IsSpace(s[|s| - 1])
    ensures Strip(s) == s
  {
    assert TrimStart(s) == s;
  }

  /** `lower()`, folding only the ASCII capitals. */
  function LowerChar(c: char): char
  {
    if 'A' <= c <= 'Z' then (c as int - 'A' as int + 'a' as int) as char else c
  }

  function Lower(s: string): (r: string)
  {
    seq(|s|, i requires 0 <= i < |s| => LowerChar(s[i]))
  }

  predicate EqualsIgnoringCase(a: string, b: string)
  {
    |a| == |b| && forall i :: 0 <= i < |a| ==> LowerChar(a[i]) == LowerChar(b[i])
  }

  // ---------------------------------------------------------------- numerals

  predicate IsDigit(c: char)
  {
    '0' <= c <= '9'
  }

  /** `str.isnumeric()`, restricted to ASCII digits: at least one character, all digits. */
  predicate IsNumericText(s: string)
  {
    s != [] && forall i :: 0 <= i < |s| ==> IsDigit(s[i])
  }

  function DigitValue(c: char): nat
    requires IsDigit(c)
  {
    c as int - '0' as int
  }

  function DigitChar(d: nat): (c: char)
    requires d < 10
    ensures IsDigit(c) && DigitValue(c) == d
  {
    ('0' as int + d) as char
  }

  /** The number a run of digits denotes. */
  function DigitsValue(s: string): nat
    requires forall i :: 0 <= i < |s| ==> IsDigit(s[i])
  {
    if s == [] then 0 else DigitsValue(s[..|s| - 1]) * 10 + DigitValue(s[|s| - 1])
  }

  /** The decimal digits of a natural number, most significant first. */
  function DecimalText(n: nat): (r: string)
    ensures IsNumericText(r)
  {
    if n < 10 then [DigitChar(n)] else DecimalText(n / 10) + [DigitChar(n % 10)]
  }

  /** `str(i)` for a Python int. */
  function IntText(i: int): string
  {
    if i < 0 then "-" + DecimalText(-i) else DecimalText(i)
  }

  /** `int(s, 10)`: surrounding whitespace, an optional sign, then decimal digits;
      None where Python raises ValueError. */
  function ParseDecimal(s: string): Option<int>
  {
    var t := Strip(s);
    if t != [] && (t[0] == '+' || t[0] == '-') then
      if IsNumericText(t[1..]) then
        var magnitude: int := DigitsValue(t[1..]);
        Some(if t[0] == '-' then -magnitude else magnitude)
      else None
    else if IsNumericText(t) then Some(DigitsValue(t))
    else None
  }

  lemma {:induction false} DecimalTextValue(n: nat)
    ensures DigitsValue(DecimalText(n)) == n
  {
    if n >= 10 {
      DecimalTextValue(n / 10);
      var s := DecimalText(n / 10);
      assert (s + [DigitChar(n % 10)])[..|s|] == s;
    }
  }

  /** Digits parse to the number they spell. */
  lemma ParseNumericText(s: string)
    requires IsNumericText(s)
    ensures ParseDecimal(s) == Some(DigitsValue(s))
  {
    StripUnchanged(s);
  }

  // ---------------------------------------------------------------- ValueUtils

  /** `ValueUtils.isNumeric`. */
  function IsNumeric(value: Value): (r: bool)
    ensures r <==> value.VInt? || (value.VStr? && IsNumericText(value.s))
  {
    match value
    case VInt(_) => true
    case VStr(s) =>
      if s != [] && Strip(s) != [] then IsNumericText(s)
      else (StripEmpty(s); false)
    case _ => false
  }

  /** `ValueUtils.isEmpty`. */
  function IsEmpty(value: Value): (r: bool)
    ensures r <==> !value.Truthy() || (value.VStr? && IsBlank(value.s))
  {
    if !value.Truthy() then true
    else if value.VStr? then
      StripEmpty(value.s);
      !(value.s != [] && Strip(value.s) != [])
    else false
  }

  /** `ValueUtils.toInt`: an int as it is, a str through `int(s, 10)` (which may
      raise), None for every other type, bool included. */
  function ToInt(value: Value): Outcome<Option<int>>
  {
    match value
    case VInt(i) => Ok(Some(i))
    case VStr(s) =>
      (match ParseDecimal(s)
       case Some(n) => Ok(Some(n))
       case None => Raised(ValueError))
    case _ => Ok(None)
  }

  /** `ValueUtils.toStr`: an int in decimal, a str as it is, None otherwise. */
  function ToStr(value: Value): Option<string>
  {
    match value
    case VInt(i) => Some(IntText(i))
    case VStr(s) => Some(s)
    case _ => None
  }

  /** `ValueUtils.toBool`. */
  function ToBool(value: Value): (r: bool)
    ensures r <==> value == VBool(true) || (value.VStr? && EqualsIgnoringCase(value.s, "true"))
  {
    match value
    case VBool(b) => b
    case VStr(s) =>
      assert Lower(s) == "true" <==> EqualsIgnoringCase(s, "true") by {
        if EqualsIgnoringCase(s, "true") {
          assert forall i :: 0 <= i < 4 ==> Lower(s)[i] == "true"[i];
        }
      }
      Lower(s) == "true"
    case _ => false
  }

  /** `ValueUtils.getStr`: `datas.keys()` raises unless `datas` is a dict. */
  function GetStr(datas: Value, key: string): (r: Outcome<Option<string>>)
    ensures r.Raised? <==> !datas.VDict?
  {
    if !datas.VDict? then Raised(AttributeError)
    else if key in datas.entries then Ok(ToStr(datas.entries[key]))
    else Ok(None)
  }

  /** `ValueUtils.getInt`. */
  function GetInt(datas: Value, key: string): (r: Outcome<Option<int>>)
    ensures !datas.VDict? ==> r == Raised(AttributeError)
  {
    if !datas.VDict? then Raised(AttributeError)
    else if key in datas.entries then ToInt(datas.entries[key])
    else Ok(None)
  }

  /** `ValueUtils.getBool`. */
  function GetBool(datas: Value, key: string): (r: Outcome<bool>)
    ensures r.Raised? <==> !datas.VDict?
  {
    if !datas.VDict? then Raised(AttributeError)
    else if key in datas.entries then Ok(ToBool(datas.entries[key]))
    else Ok(false)
  }

  /** `ValueUtils.getAny`. */
  function GetAny(datas: Value, key: string): (r: Outcome<Value>)
    ensures r.Raised? <==> !datas.VDict?
  {
    if !datas.VDict? then Raised(AttributeError)
    else if key in datas.entries then Ok(datas.entries[key])
    else Ok(VNone)
  }

  /** The entry under `key` of a dict, None when it is absent. */
  function Field(datas: Value, key: string): Value
  {
    if datas.VDict? && key in datas.entries then datas.entries[key] else VNone
  }

  /** A missing key reads as None, and as False for `getBool`. */
  lemma MissingKey(datas: Value, key: string)
    requires datas.VDict? && key !in datas.entries
    ensures GetStr(datas, key) == Ok(None) && GetInt(datas, key) == Ok(None)
    ensures GetAny(datas, key) == Ok(VNone) && GetBool(datas, key) == Ok(false)
  {
  }

  /** `toInt(toStr(n)) == n` for every int. */
  lemma ToIntToStr(n: int)
    ensures ToStr(VInt(n)).Some?
    ensures ToInt(VStr(ToStr(VInt(n)).value)) == Ok(Some(n))
  {
    var t := IntText(n);
    var d := DecimalText(if n < 0 then -n else n);
    DecimalTextValue(if n < 0 then -n else n);
    if n < 0 {
      assert t == "-" + d && t[1..] == d;
    }
    StripUnchanged(t);
  }

  /** Decimal text of an int passes `isNumeric` exactly when the int is not negative. */
  lemma IntTextNumeric(n: int)
    ensures IsNumeric(VStr(IntText(n))) <==> n >= 0
  {
    if n < 0 {
      assert IntText(n)[0] == '-';
    }
  }

  /** A field that is an int or a str of ASCII digits: what the validators demand
      of `compe_no`, `count` and `before_time`. */
  predicate NumeralField(v: Value)
  {
    (v.VInt? && v.i >= 0) || (v.VStr? && IsNumericText(v.s))
  }

  /** `isNumeric(getStr(form, key))` holds exactly for a numeral field; then
      `getInt(form, key)` cannot raise and yields a non-negative int. */
  lemma NumeralFieldChecks(form: Value, key: string)
    requires form.VDict?
    ensures var s := GetStr(form, key).value;
            s.Some? && IsNumeric(VStr(s.value)) <==> NumeralField(Field(form, key))
    ensures NumeralField(Field(form, key)) ==>
            GetInt(form, key).Ok? && GetInt(form, key).value.Some? && GetInt(form, key).value.value >= 0
  {
    var v := Field(form, key);
    assert GetStr(form, key).value == ToStr(v);
    assert GetInt(form, key) == ToInt(v);
    if v.VInt? {
      IntTextNumeric(v.i);
    } else if v.VStr? {
      if IsNumericText(v.s) {
        ParseNumericText(v.s);
      }
    }
  }
}
