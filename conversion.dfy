/**
 * Python's `int(value)` applied to a value decoded from a JSON request body,
 * as the SPEED command does (backend/app.py, `control_simulation`), and the
 * decimal rendering `str(n)` used in its reply message.
 *
 * `int` on a string skips surrounding ASCII whitespace (space, tab, line
 * feed, vertical tab, form feed, carriage return), accepts one optional sign
 * and decimal digits with single underscores between them, and raises
 * `ValueError` otherwise; on `None`, a list or an object it raises `TypeError`;
 * a boolean gives 0 or 1 and a float is truncated toward zero.
 */
module Conversion {
  import opened Wrappers

  /** A value as Python's JSON decoder produces it. */
  datatype JsonValue =
    | JNull
    | JBool(b: bool)
    | JInt(i: int)
    | JFloat(f: real)
    | JString(s: string)
    | JArray(elems: seq<JsonValue>)
    | JObject(fields: seq<(string, JsonValue)>)

  /** Outcome of `int(value)`: a value, or which exception it raises. */
  datatype IntConversion = IntValue(n: int) | ValueError | TypeError

  /** The ASCII whitespace `int` skips around its digits (not the wider set `str.strip` removes). */
  predicate IsSpace(c: char) {
    c == ' ' || c == '\t' || c == '\n' || c == '\r' || c == '\U{000B}' || c == '\U{000C}'
  }

  predicate IsDigit(c: char) {
    '0' <= c <= '9'
  }

  /** `s` with its leading whitespace removed. */
  function StripLeft(s: string): (r: string)
    ensures |r| <= |s| && r == s[|s| - |r|..]
    ensures forall i :: 0 <= i < |s| - |r| ==> IsSpace(s[i])
    ensures r == [] || !IsSpace(r[0])
  {
    if s != [] && IsSpace(s[0]) then StripLeft(s[1..]) else s
  }

  /** `s` with its trailing whitespace removed. */
  function StripRight(s: string): (r: string)
    ensures |r| <= |s| && r == s[..|r|]
    ensures forall i :: |r| <= i < |s| ==> IsSpace(s[i])
    ensures r == [] || !IsSpace(r[|r| - 1])
  {
    if s != [] && IsSpace(s[|s| - 1]) then StripRight(s[..|s| - 1]) else s
  }

  /** `s` without the whitespace `int` skips at either end. */
  function Strip(s: string): string {
    StripRight(StripLeft(s))
  }

  /** Digits with single underscores between them, as `int` accepts in base 10. */
  predicate IsGroupedDigits(t: string) {
    |t| > 0 && IsDigit(t[0]) && IsDigit(t[|t| - 1])
    && (forall i :: 0 <= i < |t| ==> IsDigit(t[i]) || t[i] == '_')
    && (forall i :: 0 <= i < |t| - 1 ==> !(t[i] == '_' && t[i + 1] == '_'))
  }

  /** `t` without its underscores. */
  function Ungroup(t: string): (r: string)
    ensures |r| <= |t|
    ensures forall i :: 0 <= i < |r| ==> r[i] != '_'
    ensures (forall i :: 0 <= i < |t| ==> IsDigit(t[i]) || t[i] == '_') ==>
              forall i :: 0 <= i < |r| ==> IsDigit(r[i])
  {
    if t == [] then []
    else if t[0] == '_' then Ungroup(t[1..])
    else [t[0]] + Ungroup(t[1..])
  }

  /** The number a string of decimal digits denotes. */
  function DigitsValue(ds: string): (n: nat)
    requires forall i :: 0 <= i < |ds| ==> IsDigit(ds[i])
  {
    if ds == [] then 0
    else
      var last := ds[|ds| - 1];
      assert IsDigit(last);
      DigitsValue(ds[..|ds| - 1]) * 10 + (last as int - '0' as int)
  }

  /** `int(s)` for a string `s` in base 10; `None` where Python raises `ValueError`. */
  function ParseDecimal(s: string): (r: Option<int>)
    ensures (forall i :: 0 <= i < |s| ==> IsSpace(s[i])) ==> r.None?
  {
    ParseStripped(Strip(s))
  }

  /** `int` on text that has already been stripped: an optional sign, then grouped digits. */
  function ParseStripped(t: string): (r: Option<int>)
    ensures r.Some? ==> t != [] && IsDigit(t[|t| - 1])
    ensures r.Some? && r.value < 0 ==> t[0] == '-'
  {
    if |t| > 0 && (t[0] == '-' || t[0] == '+') then
      if IsGroupedDigits(t[1..]) then
        var m: int := DigitsValue(Ungroup(t[1..]));
        Some(if t[0] == '-' then -m else m)
      else None
    else if IsGroupedDigits(t) then Some(DigitsValue(Ungroup(t)))
    else None
  }

  /** `int(f)` for a finite float: truncation toward zero. */
  function Truncate(f: real): (n: int)
    ensures f >= 0.0 ==> n as real <= f < n as real + 1.0
    ensures f < 0.0 ==> (n as real) - 1.0 < f <= n as real
  {
    if f >= 0.0 then f.Floor else -((-f).Floor)
  }

  /** `int(value)`. */
  function IntOf(v: JsonValue): (r: IntConversion)
    ensures r.IntValue? <==>
      !(v.JNull? || v.JArray? || v.JObject?) && (v.JString? ==> ParseDecimal(v.s).Some?)
    ensures r.IntValue? && v.JString? ==> ParseDecimal(v.s) == Some(r.n)
  {
    match v
    case JNull => TypeError
    case JBool(b) => IntValue(if b then 1 else 0)
    case JInt(i) => IntValue(i)
    case JFloat(f) => IntValue(Truncate(f))
    case JString(s) =>
      (match ParseDecimal(s)
       case Some(n) => IntValue(n)
       case None => ValueError)
    case JArray(_) => TypeError
    case JObject(_) => TypeError
  }

  /** `int` raises TypeError exactly on null, a list or an object, and ValueError exactly on text that is no integer literal. */
  lemma IntOfFails(v: JsonValue)
    ensures IntOf(v) == TypeError <==> v.JNull? || v.JArray? || v.JObject?
    ensures IntOf(v) == ValueError <==> v.JString? && ParseDecimal(v.s).None?
  {
  }

  // ---------------------------------------------------------------------
  // `str(n)`, and the round trip `int(str(n)) == n`.

  function DigitChar(d: nat): (c: char)
    requires d < 10
    ensures IsDigit(c) && c as int - '0' as int == d
  {
    ('0' as int + d) as char
  }

  /** The decimal digits of `n`, without leading zeros. */
  function NatString(n: nat): (r: string)
    ensures |r| > 0
    ensures forall i :: 0 <= i < |r| ==> IsDigit(r[i])
    ensures |r| > 1 ==> r[0] != '0'
  {
    if n < 10 then [DigitChar(n)] else NatString(n / 10) + [DigitChar(n % 10)]
  }

  /** `str(n)`. */
  function DecimalString(n: int): (r: string)
    ensures |r| > 0
    ensures r[0] == '-' <==> n < 0
    ensures forall i :: 0 < i < |r| ==> IsDigit(r[i])
  {
    if n < 0 then "-" + NatString(-n) else NatString(n)
  }

  lemma {:induction false} DigitsValueOfNatString(n: nat)
    ensures DigitsValue(NatString(n)) == n
  {
    if n >= 10 {
      var p := NatString(n / 10);
      var r := NatString(n);
      assert r[..|r| - 1] == p;
      DigitsValueOfNatString(n / 10);
    }
  }

  lemma {:induction false} UngroupDigits(t: string)
    requires forall i :: 0 <= i < |t| ==> IsDigit(t[i])
    ensures Ungroup(t) == t
  {
    if t != [] {
      UngroupDigits(t[1..]);
    }
  }

  /** Removing underscores works piece by piece. */
  lemma {:induction false} UngroupAppend(a: string, b: string)
    ensures Ungroup(a + b) == Ungroup(a) + Ungroup(b)
  {
    if a != [] {
      assert (a + b)[0] == a[0] && (a + b)[1..] == a[1..] + b;
      UngroupAppend(a[1..], b);
      if a[0] != '_' {
        assert Ungroup(a) + Ungroup(b) == [a[0]] + (Ungroup(a[1..]) + Ungroup(b));
      }
    } else {
      assert a + b == b;
    }
  }

  /** An underscore is dropped and any other character is kept. */
  lemma UngroupOne(c: char)
    ensures Ungroup([c]) == if c == '_' then [] else [c]
  {
  }

  /** Digit groups keep their digits in order: `int("1_000") == 1000`. */
  lemma GroupedThousand()
    ensures ParseDecimal("1_000") == Some(1000)
  {
    GroupedThousandStripped();
    StripUnpadded("1_000");
  }

  lemma GroupedThousandStripped()
    ensures ParseStripped("1_000") == Some(1000)
  {
    GroupedThousandUngrouped();
    GroupedThousandIsGrouped();
    assert "1_000"[0] == '1';
    assert DigitsValue("1000") == 1000 by {
      assert "1000"[..3] == "100" && "100"[..2] == "10" && "10"[..1] == "1";
    }
  }

  lemma GroupedThousandIsGrouped()
    ensures IsGroupedDigits("1_000")
  {
    var t := "1_000";
    assert t[0] == '1' && t[1] == '_' && t[2] == '0' && t[3] == '0' && t[4] == '0';
  }

  lemma GroupedThousandUngrouped()
    ensures Ungroup("1_000") == "1000"
  {
    var zeros := "000";
    UngroupDigits(zeros);
    var tail := ['_'] + zeros;
    assert tail[0] == '_' && tail[1..] == zeros;
    assert Ungroup(tail) == zeros;
    var t := ['1'] + tail;
    assert t[0] == '1' && t[1..] == tail;
    assert Ungroup(t) == ['1'] + zeros;
    assert t == "1_000" && ['1'] + zeros == "1000";
  }

  /** A string that neither starts nor ends with whitespace is its own `Strip`. */
  lemma StripUnpadded(s: string)
    requires s != [] && !IsSpace(s[0]) && !IsSpace(s[|s| - 1])
    ensures Strip(s) == s
  {
    assert StripLeft(s) == s;
  }

  /** `int` reads back the digits `NatString` writes. */
  lemma ParseNatString(m: nat)
    ensures IsGroupedDigits(NatString(m))
    ensures DigitsValue(Ungroup(NatString(m))) == m
  {
    UngroupDigits(NatString(m));
    DigitsValueOfNatString(m);
  }

  /** Grouped digits without a sign are read as they are. */
  lemma ParseUnsigned(t: string)
    requires IsGroupedDigits(t)
    ensures ParseStripped(t) == Some(DigitsValue(Ungroup(t)))
  {
    assert IsDigit(t[0]);
  }

  /** A minus sign in front of grouped digits negates them. */
  lemma ParseNegative(t: string)
    requires IsGroupedDigits(t)
    ensures ParseStripped("-" + t) == Some(-(DigitsValue(Ungroup(t)) as int))
  {
    assert ("-" + t)[1..] == t;
  }

  /** `int(str(n)) == n` for every integer `n`, also through a JSON string. */
  lemma IntOfDecimalString(n: int)
    ensures IntOf(JString(DecimalString(n))) == IntValue(n)
  {
    ParseDecimalString(n);
  }

  /** `int(str(n)) == n` for every integer `n`. */
  lemma ParseDecimalString(n: int)
    ensures ParseDecimal(DecimalString(n)) == Some(n)
  {
    var m: nat := if n < 0 then -n else n;
    var digits := NatString(m);
    ParseNatString(m);
    StripUnpadded(DecimalString(n));
    if n < 0 {
      ParseNegative(digits);
    } else {
      ParseUnsigned(digits);
    }
  }

  /** Text that is not a base-10 integer makes `int` raise `ValueError`. */
  lemma LettersNotDecimal()
    ensures ParseDecimal("abc") == None
  {
    StripUnpadded("abc");
    LettersNotStripped();
  }

  lemma LettersNotStripped()
    ensures ParseStripped("abc") == None
  {
    LettersNotGrouped();
    assert "abc"[0] == 'a';
  }

  lemma LettersNotGrouped()
    ensures !IsGroupedDigits("abc")
  {
    assert "abc"[0] == 'a';
  }

  lemma FractionNotDecimal()
    ensures ParseDecimal("2.0") == None
  {
    assert "2.0"[1] == '.' && !IsGroupedDigits("2.0");
    StripUnpadded("2.0");
  }

  lemma EmptyNotDecimal()
    ensures ParseDecimal("") == None
  {
  }
}
