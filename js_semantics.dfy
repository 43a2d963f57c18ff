/**
 * The few pieces of JavaScript semantics that the handlers in app.js rely on:
 * optional values, JSON values and their truthiness, the global `parseInt`
 * (decimal only), the conversion of an integral Number to a String, and the
 * truncating remainder operator `%`.
 */
module JsSemantics {

  datatype Option<+T> = None | Some(value: T)

  /** A JSON value as the handlers see it; `Undefined` stands for an absent property. */
  datatype JsValue =
    | Undefined
    | Null
    | Bool(b: bool)
    | Num(n: int)
    | Str(s: string)
    | Arr(items: seq<JsValue>)
    | Obj(fields: map<string, JsValue>)

  /** Property read `o.k` on a plain object: an absent key reads as `undefined`. */
  function Get(fields: map<string, JsValue>, key: string): (v: JsValue)
    ensures key !in fields ==> v == Undefined
    ensures key in fields ==> v == fields[key]
  {
    if key in fields then fields[key] else Undefined
  }

  /** ToBoolean: what `if (v)`, `!v` and `v || d` test (integral numbers only, so no NaN).
      Exactly five JSON values are falsy; every array and object is truthy. */
  predicate Truthy(v: JsValue)
    ensures Truthy(v) <==> v !in {Undefined, Null, Bool(false), Num(0), Str("")}
  {
    match v
    case Undefined => false
    case Null => false
    case Bool(b) => b
    case Num(n) => n != 0
    case Str(s) => s != ""
    case Arr(_) => true
    case Obj(_) => true
  }

  /** `v || {}`: a falsy value is replaced by an empty object. */
  function OrEmptyObject(v: JsValue): (r: JsValue)
    ensures Truthy(r)
    ensures Truthy(v) ==> r == v
    ensures !Truthy(v) ==> r == Obj(map[])
  {
    if Truthy(v) then v else Obj(map[])
  }

  // ---------------------------------------------------------------------------
  // Digits and the decimal rendering of integers (Number.prototype.toString)
  // ---------------------------------------------------------------------------

  predicate IsDigit(c: char) { '0' <= c <= '9' }

  function DigitValue(c: char): (d: nat)
    requires IsDigit(c)
    ensures d < 10
  {
    (c as int - '0' as int) as nat
  }

  function DigitChar(d: nat): (c: char)
    requires d < 10
    ensures IsDigit(c) && DigitValue(c) == d
  {
    (d + '0' as int) as char
  }

  predicate AllDigits(s: string)
  {
    forall i :: 0 <= i < |s| ==> IsDigit(s[i])
  }

  /** The value of a string of decimal digits, most significant first. */
  function DigitsValue(ds: string): nat
    requires AllDigits(ds)
  {
    if |ds| == 0 then 0 else DigitsValue(ds[..|ds| - 1]) * 10 + DigitValue(ds[|ds| - 1])
  }

  /** Canonical decimal rendering of a natural number: digits only, no leading zero. */
  function NatToString(n: nat): (r: string)
    ensures |r| > 0 && AllDigits(r)
    ensures r[0] == '0' ==> n == 0
    ensures AllDigits(r) && DigitsValue(r) == n
  {
    if n < 10 then [DigitChar(n)]
    else
      var prefix := NatToString(n / 10);
      var r := prefix + [DigitChar(n % 10)];
      assert r[..|r| - 1] == prefix;
      r
  }

  /** `String(n)` for an integral Number (a leading `-` for negatives; `-0` prints as `0`). */
  function IntToString(n: int): (r: string)
    ensures |r| > 0
    ensures 0 <= n ==> r == NatToString(n)
    ensures n < 0 ==> r == "-" + NatToString(-n)
  {
    if n < 0 then "-" + NatToString(-n) else NatToString(n)
  }

  /** `"" + v`: the string a value becomes when concatenated into a URL. */
  function ToJsString(v: JsValue): (r: string)
    ensures v.Num? ==> r == IntToString(v.n)
    ensures v.Str? ==> r == v.s
    decreases v
  {
    match v
    case Undefined => "undefined"
    case Null => "null"
    case Bool(b) => if b then "true" else "false"
    case Num(n) => IntToString(n)
    case Str(s) => s
    case Arr(items) => JoinElements(items)
    case Obj(_) => "[object Object]"
  }

  /** `Array.prototype.join(",")`: `null` and `undefined` elements print as empty. */
  function JoinElements(items: seq<JsValue>): (r: string)
    ensures |items| == 0 ==> r == ""
    ensures |items| == 1 && items[0] in {Null, Undefined} ==> r == ""
    ensures |items| == 1 && items[0] !in {Null, Undefined} ==> r == ToJsString(items[0])
    decreases items
  {
    if |items| == 0 then ""
    else
      var first := if items[0] == Null || items[0] == Undefined then "" else ToJsString(items[0]);
      if |items| == 1 then first else first + "," + JoinElements(items[1..])
  }

  // ---------------------------------------------------------------------------
  // The remainder operator `%` of JavaScript: truncating, sign of the dividend
  // ---------------------------------------------------------------------------

  /** `a % b` in JavaScript for a positive divisor. Unlike Dafny's Euclidean `%`,
      the result takes the sign of `a`: `-14 % 10` is `-4`. */
  function JsRem(a: int, b: int): (r: int)
    requires b > 0
    ensures 0 <= a ==> r == a % b
    ensures a < 0 ==> -b < r <= 0
    ensures a < 0 && r != 0 ==> a % b == r + b
    ensures (r == 0) == (a % b == 0)
  {
    if a >= 0 then a % b
    else
      var m := (-a) % b;
      var q := (-a) / b;
      assert -a == b * q + m;
      if m == 0 then
        EuclideanUnique(a, b, -q, 0);
        0
      else
        EuclideanUnique(a, b, -q - 1, b - m);
        -m
  }

  /** Dafny's `%` is the unique remainder in `[0, b)`. */
  lemma EuclideanUnique(a: int, b: int, q: int, r: int)
    requires b > 0 && 0 <= r < b && a == b * q + r
    ensures a % b == r
  {
    var q0, r0 := a / b, a % b;
    assert b * (q - q0) == r0 - r;
    MulBounds(b, q - q0);
  }

  lemma {:induction false} MulBounds(b: int, d: int)
    requires b > 0
    ensures d >= 1 ==> b * d >= b
    ensures d <= -1 ==> b * d <= -b
    decreases if d < 0 then -d else d
  {
    if d > 1 {
      MulBounds(b, d - 1);
    } else if d < -1 {
      MulBounds(b, d + 1);
    }
  }

  // ---------------------------------------------------------------------------
  // parseInt(string), decimal radix
  // ---------------------------------------------------------------------------

  /** StrWhiteSpaceChar of ECMAScript: the white space and line terminators that
      `parseInt` skips before the number. */
  predicate IsWhiteSpace(c: char)
  {
    c == '\t' || c == '\n' || c == '\U{000B}' || c == '\U{000C}' || c == '\r' || c == ' '
    || c == '\U{00A0}' || c == '\U{1680}' || ('\U{2000}' <= c <= '\U{200A}')
    || c == '\U{2028}' || c == '\U{2029}' || c == '\U{202F}' || c == '\U{205F}'
    || c == '\U{3000}' || c == '\U{FEFF}'
  }

  predicate AllWhiteSpace(w: string)
  {
    forall i :: 0 <= i < |w| ==> IsWhiteSpace(w[i])
  }

  /** What is left of `s` once its leading white space is removed. */
  function TrimStart(s: string): (t: string)
    ensures |t| <= |s|
    ensures t == s[|s| - |t|..]
    ensures AllWhiteSpace(s[..|s| - |t|])
    ensures |t| > 0 ==> !IsWhiteSpace(t[0])
  {
    if |s| > 0 && IsWhiteSpace(s[0]) then TrimStart(s[1..]) else s
  }

  /** The length of the longest prefix of `s` made of decimal digits. */
  function DigitRun(s: string): (k: nat)
    ensures k <= |s| && AllDigits(s[..k])
    ensures k < |s| ==> !IsDigit(s[k])
  {
    if |s| > 0 && IsDigit(s[0]) then
      var k := 1 + DigitRun(s[1..]);
      assert s[..k] == [s[0]] + s[1..][..k - 1];
      k
    else 0
  }

  /** The text after one leading sign character, if there is one. */
  function DropSign(t: string): (u: string)
  {
    if |t| > 0 && (t[0] == '-' || t[0] == '+') then t[1..] else t
  }

  /** The number at the very start of `t` (no white space allowed): an optional sign,
      then the longest run of digits; `None` when no digit follows the sign. */
  function ParseSigned(t: string): (r: Option<int>)
    ensures r.Some? <==> DigitRun(DropSign(t)) > 0
    ensures r.Some? && |t| > 0 && t[0] == '-' ==> r.value <= 0
    ensures r.Some? && !(|t| > 0 && t[0] == '-') ==> r.value >= 0
  {
    var u := DropSign(t);
    var k := DigitRun(u);
    if k == 0 then None
    else
      var magnitude: int := DigitsValue(u[..k]);
      Some(if |t| > 0 && t[0] == '-' then -magnitude else magnitude)
  }

  /** `parseInt(s)` with radix 10: leading white space, an optional sign, then the
      longest run of digits; `None` is NaN. Trailing text is ignored. The result is a
      number exactly when a digit follows the white space and the optional sign. */
  function ParseInt(s: string): (r: Option<int>)
    ensures var u := DropSign(TrimStart(s));
            r.Some? <==> (|u| > 0 && IsDigit(u[0]))
  {
    ParseSigned(TrimStart(s))
  }

  // ---------------------------------------------------------------------------
  // Lemmas
  // ---------------------------------------------------------------------------

  /** Leading white space never changes what `parseInt` returns. */
  lemma ParseIntSkipsWhiteSpace(w: string, s: string)
    requires forall i :: 0 <= i < |w| ==> IsWhiteSpace(w[i])
    ensures ParseInt(w + s) == ParseInt(s)
  {
    TrimStartSkips(w, s);
  }

  lemma {:induction false} TrimStartSkips(w: string, s: string)
    requires forall i :: 0 <= i < |w| ==> IsWhiteSpace(w[i])
    ensures TrimStart(w + s) == TrimStart(s)
  {
    if |w| > 0 {
      assert (w + s)[1..] == w[1..] + s;
      TrimStartSkips(w[1..], s);
    } else {
      assert w + s == s;
    }
  }

  /** The digits of a digit string followed by a non-digit form exactly the digit run. */
  lemma {:induction false} DigitRunOfDigits(ds: string, rest: string)
    requires AllDigits(ds)
    requires |rest| == 0 || !IsDigit(rest[0])
    ensures DigitRun(ds + rest) == |ds|
  {
    if |ds| > 0 {
      assert (ds + rest)[1..] == ds[1..] + rest;
      DigitRunOfDigits(ds[1..], rest);
    } else {
      assert ds + rest == rest;
    }
  }

  /** A digit string followed by a non-digit reads as its own value. */
  lemma ParseSignedOfDigits(ds: string, rest: string)
    requires |ds| > 0 && AllDigits(ds)
    requires |rest| == 0 || !IsDigit(rest[0])
    ensures ParseSigned(ds + rest) == Some(DigitsValue(ds))
  {
    var u := ds + rest;
    assert u[0] == ds[0];
    assert DropSign(u) == u;
    DigitRunOfDigits(ds, rest);
    assert DigitRun(DropSign(u)) == |ds|;
    assert u[..|ds|] == ds;
  }

  /** The same after a minus sign: the value is negated. */
  lemma ParseSignedOfNegativeDigits(u: string)
    requires |u| > 0 && IsDigit(u[0])
    ensures ParseSigned(u).Some?
    ensures ParseSigned(['-'] + u) == Some(-ParseSigned(u).value)
  {
    var t := ['-'] + u;
    assert t[1..] == u;
    assert DropSign(t) == u;
    assert DropSign(u) == u;
  }
  /** A plus sign in front of the digits changes nothing. */
  lemma ParseSignedOfPlus(u: string)
    requires |u| > 0 && IsDigit(u[0])
    ensures ParseSigned(['+'] + u) == ParseSigned(u)
  {
    var t := ['+'] + u;
    assert t[1..] == u;
    assert DropSign(t) == u;
    assert DropSign(u) == u;
  }

  /** After white space, `parseInt` reads the signed number that follows. */
  lemma ParseIntAfterWhiteSpace(w: string, t: string)
    requires forall i :: 0 <= i < |w| ==> IsWhiteSpace(w[i])
    requires |t| > 0 && (t[0] == '-' || t[0] == '+' || IsDigit(t[0]))
    ensures ParseInt(w + t) == ParseSigned(t)
  {
    TrimStartSkips(w, t);
    TrimStartNoWhiteSpace(t);
  }

  /** Leading white space, a plus sign and trailing text do not change the number read. */
  lemma ParseIntOfPaddedNumber(w: string, n: nat, rest: string)
    requires forall i :: 0 <= i < |w| ==> IsWhiteSpace(w[i])
    requires |rest| == 0 || !IsDigit(rest[0])
    ensures ParseInt(w + "+" + IntToString(n) + rest) == Some(n)
  {
    var ds := NatToString(n);
    var u := ds + rest;
    ParseSignedOfDigits(ds, rest);
    assert IsDigit(u[0]) by { assert u[0] == ds[0]; }
    ParseSignedOfPlus(u);
    var t := ['+'] + u;
    ParseIntAfterWhiteSpace(w, t);
    assert IntToString(n) == ds;
    ConcatAssociates(w, "+", ds, rest);
  }

  lemma ConcatAssociates(a: string, b: string, c: string, d: string)
    ensures a + b + c + d == a + (b + (c + d))
  {
  }

  /** Round trip: `parseInt(String(n) + rest)` gives back `n` whenever `rest` does not
      continue the digits, in particular for `rest == ""`. */
  lemma ParseIntOfIntToString(n: int, rest: string)
    requires |rest| == 0 || !IsDigit(rest[0])
    ensures ParseInt(IntToString(n) + rest) == Some(n)
  {
    if n < 0 {
      ParseIntOfNegative(n, rest);
    } else {
      ParseIntOfNonNegative(n, rest);
    }
  }

  lemma ParseIntOfNonNegative(n: nat, rest: string)
    requires |rest| == 0 || !IsDigit(rest[0])
    ensures ParseInt(NatToString(n) + rest) == Some(n)
  {
    var ds := NatToString(n);
    var s := ds + rest;
    ParseSignedOfDigits(ds, rest);
    assert s[0] == ds[0];
    TrimStartNoWhiteSpace(s);
  }

  lemma ParseIntOfNegative(n: int, rest: string)
    requires n < 0
    requires |rest| == 0 || !IsDigit(rest[0])
    ensures ParseInt("-" + NatToString(-n) + rest) == Some(n)
  {
    var ds := NatToString(-n);
    var u := ds + rest;
    ParseSignedOfDigits(ds, rest);
    assert IsDigit(u[0]) by { assert u[0] == ds[0]; }
    ParseSignedOfNegativeDigits(u);
    var s := ['-'] + u;
    TrimStartNoWhiteSpace(s);
    ConcatAssociates3("-", ds, rest);
  }

  lemma ConcatAssociates3(a: string, b: string, c: string)
    ensures a + b + c == a + (b + c)
  {
  }

  lemma TrimStartNoWhiteSpace(s: string)
    requires |s| > 0 && (s[0] == '-' || s[0] == '+' || IsDigit(s[0]))
    ensures TrimStart(s) == s
  {
    assert !IsWhiteSpace(s[0]);
  }

  /** The decimal rendering of distinct integers differs: `String` is injective. */
  lemma IntToStringInjective(a: int, b: int)
    requires IntToString(a) == IntToString(b)
    ensures a == b
  {
    ParseIntOfIntToString(a, "");
    ParseIntOfIntToString(b, "");
  }
}
