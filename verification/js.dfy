/** The slice of JavaScript value semantics the components depend on:
    dynamically typed values, truthiness, `typeof … === 'object'`, `String(v)`,
    `Number(s)`, `parseInt(s)` and loose equality `==`.  Strict equality `===`
    on primitives is plain equality of `Value`s.  Numbers are integers (see
    README). */
module Js {
  import opened Common
  import opened Text

  datatype Value =
    | Undefined
    | Null
    | Bool(b: bool)
    | Num(n: int)
    | Str(s: string)
    | Arr(items: seq<Value>)
    | Obj(fields: map<string, Value>)

  /** What an `if (v)` test accepts. */
  predicate Truthy(v: Value) {
    match v
    case Undefined => false
    case Null => false
    case Bool(b) => b
    case Num(n) => n != 0
    case Str(s) => s != ""
    case Arr(_) => true
    case Obj(_) => true
  }

  /** A plain object as a map from property names to values. */
  type Record = map<string, Value>

  /** Reading property `k`; a missing property reads as `undefined`. */
  function Get(m: Record, k: string): Value {
    if k in m then m[k] else Undefined
  }

  /** `v?.k` on a value of any type: only objects carry the properties read
      here, so anything else yields `undefined`. */
  function Prop(v: Value, k: string): (r: Value)
    ensures !v.Obj? ==> r == Undefined
    ensures v.Obj? ==> r == Get(v.fields, k)
  {
    if v.Obj? then Get(v.fields, k) else Undefined
  }

  /** `new Error(message)`, as far as `error.message` can tell. */
  function ErrorWith(message: string): Value {
    Obj(map["message" := Str(message)])
  }

  /** `typeof v === 'object'`, which holds for `null` and for arrays too. */
  predicate TypeofObject(v: Value) {
    v.Null? || v.Arr? || v.Obj?
  }

  // ---------------------------------------------------------------- digits

  predicate IsDigit(c: char) {
    '0' <= c <= '9'
  }

  predicate AllDigits(s: string) {
    forall i :: 0 <= i < |s| ==> IsDigit(s[i])
  }

  function DigitChar(d: nat): (c: char)
    requires d < 10
    ensures IsDigit(c)
  {
    ('0' as int + d) as char
  }

  /** The number a run of decimal digits denotes. */
  function DecimalValue(ds: string): nat
    requires AllDigits(ds)
    decreases |ds|
  {
    if ds == [] then 0
    else DecimalValue(ds[..|ds| - 1]) * 10 + (ds[|ds| - 1] as int - '0' as int)
  }

  /** The shortest decimal spelling of `n`, as `String(n)` writes it. */
  function NatToString(n: nat): (r: string)
    ensures r != [] && AllDigits(r)
    ensures r[0] != '0' || n == 0
    decreases n
  {
    if n < 10 then [DigitChar(n)]
    else NatToString(n / 10) + [DigitChar(n % 10)]
  }

  /** The digits `String(n)` writes denote `n`. */
  lemma {:induction false} DecimalOfNatToString(n: nat)
    ensures DecimalValue(NatToString(n)) == n
    decreases n
  {
    if n >= 10 {
      var r := NatToString(n);
      assert r[..|r| - 1] == NatToString(n / 10);
      DecimalOfNatToString(n / 10);
    }
  }

  /** `String(n)` for an integer. */
  function IntToString(n: int): string {
    if n < 0 then "-" + NatToString(-n) else NatToString(n)
  }

  /** The longest run of digits at the start of `s`. */
  function DigitPrefix(s: string): (r: string)
    ensures |r| <= |s| && r == s[..|r|] && AllDigits(r)
    ensures |r| == |s| || !IsDigit(s[|r|])
    decreases |s|
  {
    if s != [] && IsDigit(s[0]) then [s[0]] + DigitPrefix(s[1..]) else []
  }

  /** An optional leading sign, split off. */
  function SplitSign(t: string): (bool, string) {
    if t != [] && t[0] == '-' then (true, t[1..])
    else if t != [] && t[0] == '+' then (false, t[1..])
    else (false, t)
  }

  /** Text that does not start with a sign has nothing split off. */
  lemma UnsignedText(t: string)
    requires t == [] || (t[0] != '-' && t[0] != '+')
    ensures SplitSign(t) == (false, t)
  {
  }

  /** Trimmed text that starts with neither a sign nor a digit is `NaN`. */
  lemma NotANumber(t: string)
    requires t != [] && IsTrimmed(t)
    requires t[0] != '-' && t[0] != '+' && !IsDigit(t[0])
    ensures StringToNumber(t) == None
  {
    TrimOfTrimmed(t);
    UnsignedText(t);
  }

  /** `parseInt(s)` (radix 10): skip leading white space, read an optional
      sign and the longest run of digits after it; `None` is `NaN`. */
  function ParseInt(s: string): Option<int> {
    var (neg, body) := SplitSign(TrimStart(s));
    var ds := DigitPrefix(body);
    if ds == [] then None
    else Some(if neg then -(DecimalValue(ds) as int) else DecimalValue(ds))
  }

  /** `Number(s)` for text holding an integer literal: surrounding white space
      is ignored and blank text is 0; anything else is `NaN` (`None`). */
  function StringToNumber(s: string): Option<int> {
    var t := Trim(s);
    if t == [] then Some(0)
    else
      var (neg, body) := SplitSign(t);
      if body != [] && AllDigits(body)
      then Some(if neg then -(DecimalValue(body) as int) else DecimalValue(body))
      else None
  }

  /** `String(v)`; array elements that are `null` or `undefined` print as
      empty text, as `Array.prototype.join` does. */
  function ToJsString(v: Value): string
    decreases v
  {
    match v
    case Undefined => "undefined"
    case Null => "null"
    case Bool(b) => if b then "true" else "false"
    case Num(n) => IntToString(n)
    case Str(s) => s
    case Arr(items) =>
      Join(seq(|items|, i requires 0 <= i < |items| =>
             if items[i].Null? || items[i].Undefined? then "" else ToJsString(items[i])), ",")
    case Obj(_) => "[object Object]"
  }

  /** `Number(v)` as used by relational comparisons; `None` is `NaN`. */
  function ToNumeric(v: Value): Option<int> {
    match v
    case Undefined => None
    case Null => Some(0)
    case Bool(b) => Some(if b then 1 else 0)
    case Num(n) => Some(n)
    case Str(s) => StringToNumber(s)
    case _ => StringToNumber(ToJsString(v))
  }

  /** The `%` operator on integers: the remainder of division truncated
      toward zero, so it takes the sign of the dividend. */
  function Rem(a: int, b: int): (r: int)
    requires b != 0
    ensures a >= 0 ==> 0 <= r < Abs(b)
    ensures a < 0 ==> -Abs(b) < r <= 0
    ensures 0 <= a < Abs(b) ==> r == a
    ensures -Abs(b) < a < 0 ==> r == a
  {
    var m := Abs(b);
    var x := Abs(a) % m;
    assert 0 <= x < m;
    if a >= 0 then x else -x
  }

  function Abs(n: int): (r: int)
    ensures r >= 0 && (r == n || r == -n)
  {
    if n < 0 then -n else n
  }

  /** `v <= 0`; every comparison with `NaN` is false. */
  predicate AtMostZero(v: Value) {
    match ToNumeric(v)
    case Some(n) => n <= 0
    case None => false
  }

  function Rank(v: Value): nat {
    if v.Arr? || v.Obj? then 2 else if v.Bool? then 1 else 0
  }

  /** Loose equality `a == b`.  Two arrays or objects are taken to be
      distinct references unless they are the same value. */
  predicate LooseEq(a: Value, b: Value)
    decreases Rank(a) + Rank(b)
  {
    if (a.Undefined? || a.Null?) && (b.Undefined? || b.Null?) then true
    else if a.Undefined? || a.Null? || b.Undefined? || b.Null? then false
    else if a.Num? && b.Num? then a.n == b.n
    else if a.Str? && b.Str? then a.s == b.s
    else if a.Bool? && b.Bool? then a.b == b.b
    else if (a.Arr? || a.Obj?) && (b.Arr? || b.Obj?) then a == b
    else if a.Num? && b.Str? then StringToNumber(b.s) == Some(a.n)
    else if a.Str? && b.Num? then StringToNumber(a.s) == Some(b.n)
    else if a.Bool? then LooseEq(Num(if a.b then 1 else 0), b)
    else if b.Bool? then LooseEq(a, Num(if b.b then 1 else 0))
    else if a.Arr? || a.Obj? then LooseEq(Str(ToJsString(a)), b)
    else LooseEq(a, Str(ToJsString(b)))
  }

  // ---------------------------------------------------------------- lemmas

  /** Text of digits is its own longest digit prefix. */
  lemma {:induction false} DigitPrefixOfDigits(s: string)
    requires AllDigits(s)
    ensures DigitPrefix(s) == s
    decreases |s|
  {
    if s != [] {
      DigitPrefixOfDigits(s[1..]);
    }
  }

  lemma DigitsAreTrimmed(s: string)
    requires s != [] && AllDigits(s)
    ensures TrimStart(s) == s && Trim(s) == s
  {
    assert !IsSpace(s[0]) && !IsSpace(s[|s| - 1]);
    TrimOfTrimmed(s);
  }

  lemma SignOfDigits(ds: string)
    requires ds != [] && AllDigits(ds)
    ensures SplitSign(ds) == (false, ds)
    ensures SplitSign("-" + ds) == (true, ds)
  {
    assert ds[0] != '-' && ds[0] != '+';
    assert ("-" + ds)[1..] == ds;
  }

  lemma MinusDigitsAreTrimmed(ds: string)
    requires ds != [] && AllDigits(ds)
    ensures TrimStart("-" + ds) == "-" + ds && Trim("-" + ds) == "-" + ds
  {
    var t := "-" + ds;
    assert t[|t| - 1] == ds[|ds| - 1];
    assert !IsSpace(t[0]) && !IsSpace(t[|t| - 1]);
    TrimOfTrimmed(t);
  }

  /** `parseInt(String(n)) === n` for every integer. */
  lemma ParseIntOfIntToString(n: int)
    ensures ParseInt(IntToString(n)) == Some(n)
  {
    var m: nat := if n < 0 then -n else n;
    var ds := NatToString(m);
    DecimalOfNatToString(m);
    DigitPrefixOfDigits(ds);
    SignOfDigits(ds);
    if n < 0 {
      MinusDigitsAreTrimmed(ds);
      assert IntToString(n) == "-" + ds;
    } else {
      DigitsAreTrimmed(ds);
      assert IntToString(n) == ds;
    }
  }

  /** `Number(String(n)) === n` for every integer. */
  lemma NumberOfIntToString(n: int)
    ensures StringToNumber(IntToString(n)) == Some(n)
  {
    var m: nat := if n < 0 then -n else n;
    var ds := NatToString(m);
    DecimalOfNatToString(m);
    SignOfDigits(ds);
    if n < 0 {
      MinusDigitsAreTrimmed(ds);
      assert IntToString(n) == "-" + ds;
    } else {
      DigitsAreTrimmed(ds);
      assert IntToString(n) == ds;
    }
  }

  /** `String(n)` starts with a minus sign or a digit. */
  lemma IntToStringStart(n: int)
    ensures |IntToString(n)| > 0
    ensures IntToString(n)[0] == '-' || IsDigit(IntToString(n)[0])
    ensures n != 0 ==> Truthy(Str(IntToString(n)))
  {
  }

  /** Distinct integers print differently. */
  lemma IntToStringInjective(a: int, b: int)
    requires IntToString(a) == IntToString(b)
    ensures a == b
  {
    ParseIntOfIntToString(a);
    ParseIntOfIntToString(b);
  }

  lemma LooseEqTexts(a: string, b: string)
    ensures LooseEq(Str(a), Str(b)) <==> a == b
  {
  }

  lemma LooseEqTextNumber(a: string, n: int)
    ensures LooseEq(Str(a), Num(n)) <==> StringToNumber(a) == Some(n)
    ensures LooseEq(Num(n), Str(a)) <==> StringToNumber(a) == Some(n)
  {
    var t, m := Str(a), Num(n);
    assert !(t.Undefined? || t.Null? || m.Undefined? || m.Null?);
    assert !(t.Num? && m.Num?) && !(t.Str? && m.Str?) && !(t.Bool? && m.Bool?);
    assert !((t.Arr? || t.Obj?) && (m.Arr? || m.Obj?)) && !(t.Num? && m.Str?);
    assert t.Str? && m.Num?;
  }

  /** Loose equality is symmetric. */
  lemma {:induction false} LooseEqSymmetric(a: Value, b: Value)
    ensures LooseEq(a, b) <==> LooseEq(b, a)
    decreases Rank(a) + Rank(b)
  {
    if (a.Undefined? || a.Null?) || (b.Undefined? || b.Null?) {
    } else if a.Bool? && !b.Bool? {
      LooseEqSymmetric(Num(if a.b then 1 else 0), b);
    } else if b.Bool? && !a.Bool? {
      LooseEqSymmetric(a, Num(if b.b then 1 else 0));
    } else if (a.Arr? || a.Obj?) && !(b.Arr? || b.Obj?) && !b.Bool? {
      LooseEqSymmetric(Str(ToJsString(a)), b);
    } else if (b.Arr? || b.Obj?) && !(a.Arr? || a.Obj?) && !a.Bool? {
      LooseEqSymmetric(a, Str(ToJsString(b)));
    }
  }

  /** A number is loosely equal to its own decimal text, which strict
      equality would reject. */
  lemma LooseEqNumberText(n: int)
    ensures LooseEq(Num(n), Str(IntToString(n)))
    ensures Num(n) != Str(IntToString(n))
  {
    NumberOfIntToString(n);
  }
}
