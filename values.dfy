/** The PHP values the library handles: what `json_decode` produces and what a
    caller builds for `paytrail_sanitize_pay`, with PHP's `empty()` and its
    integer conversion (`intval`, `(int)`). Floating-point values are not
    part of this model. */
module PhpValues {
  import opened Tables

  /** PHP's `int` on a 64-bit build. */
  newtype Int64 = x: int | -0x8000_0000_0000_0000 <= x <= 0x7fff_ffff_ffff_ffff

  /** A PHP array key. */
  datatype Key = IntKey(n: Int64) | StrKey(s: string)

  /** A PHP value: arrays keep their keys and insertion order, objects
      (`stdClass`) keep their properties in insertion order. */
  datatype Value =
    | Null
    | Bool(b: bool)
    | Int(i: Int64)
    | Str(s: string)
    | Arr(entries: seq<(Key, Value)>)
    | Obj(props: seq<(string, Value)>)

  /** PHP's `empty()`: null, false, 0, "", "0" and the empty array are empty;
      an object never is, whatever it holds. */
  predicate IsEmpty(v: Value) {
    match v
    case Null => true
    case Bool(b) => !b
    case Int(i) => i == 0
    case Str(s) => s == "" || s == "0"
    case Arr(es) => es == []
    case Obj(_) => false
  }

  /** No array or object, at any depth, holds a key twice. PHP guarantees
      this of every value, so it is the model's standing assumption. */
  predicate WellFormed(v: Value) {
    match v
    case Arr(es) => DistinctKeys(es) && forall e | e in es :: WellFormed(e.1)
    case Obj(ps) => DistinctKeys(ps) && forall p | p in ps :: WellFormed(p.1)
    case _ => true
  }

  /** Reading property `name` of an object with properties `ps`: reading a property that
      is not there gives null (with a warning). */
  function Get(ps: seq<(string, Value)>, name: string): Value {
    match Find(ps, name)
    case Some(v) => v
    case None => Null
  }

  /** Reading property `name` of any value: null unless `v` is an object holding `name`. */
  function Prop(v: Value, name: string): Value {
    match v
    case Obj(ps) => Get(ps, name)
    case _ => Null
  }

  // ---------------------------------------------------------------------
  // Integer conversion

  /** Out-of-range numeric strings saturate, as PHP's capped conversion does. */
  function Saturate(n: int): Int64 {
    if n < -0x8000_0000_0000_0000 then -0x8000_0000_0000_0000
    else if n > 0x7fff_ffff_ffff_ffff then 0x7fff_ffff_ffff_ffff
    else n as Int64
  }

  predicate IsDigit(c: char) {
    '0' <= c <= '9'
  }

  /** The whitespace a numeric string may start with. */
  predicate IsSpace(c: char) {
    c == ' ' || c == '\t' || c == '\n' || c == '\r' || c as int == 0x0b || c as int == 0x0c
  }

  function SkipSpace(s: string): string {
    if s != [] && IsSpace(s[0]) then SkipSpace(s[1..]) else s
  }

  /** The run of decimal digits `s` starts with. */
  function LeadingDigits(s: string): string {
    if s != [] && IsDigit(s[0]) then [s[0]] + LeadingDigits(s[1..]) else []
  }

  function DigitsValue(d: string): nat {
    if d == [] then 0
    else if IsDigit(d[|d| - 1]) then DigitsValue(d[..|d| - 1]) * 10 + (d[|d| - 1] - '0') as nat
    else DigitsValue(d[..|d| - 1]) * 10
  }

  /** The integer conversion of a string: optional leading whitespace and sign, then the
      leading digits; a string that does not start like a number gives 0. */
  function StrToInt(s: string): Int64 {
    Saturate(SignedValue(SkipSpace(s)))
  }

  /** The value of an optional sign followed by the leading digits. */
  function SignedValue(t: string): int {
    if t != [] && t[0] == '-' then -(DigitsValue(LeadingDigits(t[1..])) as int)
    else if t != [] && t[0] == '+' then DigitsValue(LeadingDigits(t[1..]))
    else DigitsValue(LeadingDigits(t))
  }

  /** `intval` and the `(int)` cast, for every value but a float. */
  function IntVal(v: Value): Int64 {
    match v
    case Null => 0
    case Bool(b) => if b then 1 else 0
    case Int(i) => i
    case Str(s) => StrToInt(s)
    case Arr(es) => if es == [] then 0 else 1
    case Obj(_) => 1
  }

  /** PHP's rendering of an integer as a string. */
  function Decimal(n: int): string {
    if n < 0 then "-" + NatDecimal(-n) else NatDecimal(n)
  }

  function NatDecimal(n: nat): (s: string)
    ensures s != [] && IsDigit(s[0])
  {
    if n < 10 then [DigitChar(n)] else NatDecimal(n / 10) + [DigitChar(n % 10)]
  }

  function DigitChar(d: nat): char
    requires d < 10
  {
    ('0' as int + d) as char
  }

  // ---------------------------------------------------------------------
  // Lemmas

  lemma {:induction false} NatDecimalDigits(n: nat)
    ensures forall i :: 0 <= i < |NatDecimal(n)| ==> IsDigit(NatDecimal(n)[i])
  {
    if n >= 10 { NatDecimalDigits(n / 10); }
  }

  lemma {:induction false} LeadingDigitsOfDigits(s: string)
    requires forall i :: 0 <= i < |s| ==> IsDigit(s[i])
    ensures LeadingDigits(s) == s
  {
    if s != [] { LeadingDigitsOfDigits(s[1..]); }
  }

  lemma {:induction false} DigitsValueOfDecimal(n: nat)
    ensures DigitsValue(NatDecimal(n)) == n
  {
    if n >= 10 {
      var d := NatDecimal(n);
      assert d[..|d| - 1] == NatDecimal(n / 10);
      DigitsValueOfDecimal(n / 10);
    }
  }

  /** Reading back a rendered integer gives the integer. */
  lemma StrToIntDecimal(n: Int64)
    ensures StrToInt(Decimal(n as int)) == n
    ensures IntVal(Str(Decimal(n as int))) == n
  {
    var m: nat := if n < 0 then -(n as int) else n as int;
    var d := NatDecimal(m);
    NatDecimalDigits(m);
    DigitsValueOfDecimal(m);
    StrToIntDigits(d);
  }

  /** A run of digits, with or without a minus sign, reads as its value. */
  lemma StrToIntDigits(d: string)
    requires d != [] && forall i :: 0 <= i < |d| ==> IsDigit(d[i])
    ensures StrToInt(d) == Saturate(DigitsValue(d))
    ensures StrToInt("-" + d) == Saturate(-(DigitsValue(d) as int))
  {
    LeadingDigitsOfDigits(d);
    assert SkipSpace(d) == d by { assert !IsSpace(d[0]); }
    assert SignedValue(d) == DigitsValue(d) by { assert d[0] != '-' && d[0] != '+'; }
    NegativeDigits(d);
    var t := SkipSpace("-" + d);
    assert SignedValue(t) == -(DigitsValue(d) as int) by { assert LeadingDigits(t[1..]) == d; }
  }

  lemma NegativeDigits(d: string)
    ensures var t := SkipSpace("-" + d); t != [] && t[0] == '-' && t[1..] == d
  {
    var s := "-" + d;
    assert s[0] == '-' && !IsSpace(s[0]);
    assert s[1..] == d;
  }

  /** Assigning a well-formed value to a property keeps an object well formed. */
  lemma WellFormedSet(ps: seq<(string, Value)>, k: string, v: Value)
    requires WellFormed(Obj(ps)) && WellFormed(v)
    ensures WellFormed(Obj(Set(ps, k, v)))
  {
    SetSpec(ps, k, v);
  }

  /** Removing a property keeps an object well formed. */
  lemma WellFormedUnset(ps: seq<(string, Value)>, k: string)
    requires WellFormed(Obj(ps))
    ensures WellFormed(Obj(Unset(ps, k)))
  {
    UnsetSpec(ps, k);
  }

  /** Every property of a well-formed object is well formed. */
  lemma WellFormedGet(ps: seq<(string, Value)>, k: string)
    requires WellFormed(Obj(ps))
    ensures WellFormed(Get(ps, k))
  {
    FindMember(ps, k);
  }
}
