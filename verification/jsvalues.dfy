/**
 * The JavaScript values that flow through the store, and the three ways the
 * store compares them:
 *  - `FromJS`: the structural normalisation applied to every dedup key before
 *    it reaches the key index (Immutable's `fromJS` followed by value equality);
 *  - `StrictEquals`: the `===` that `getByProperty` applies to record fields;
 *  - `ParseInt`: the decimal coercion `getById` applies to its argument.
 */
module JsValues {
  import opened Wrappers

  /**
   * A JavaScript value. Arrays and plain objects are reference values: `ref`
   * names their allocation, so two array literals with the same elements are
   * different under `===`. Integral numbers are `Int`; every other number is an
   * opaque `Num` token that supports only equality (no arithmetic is modelled).
   */
  datatype JsValue =
    | Undefined
    | Null
    | Bool(b: bool)
    | Int(i: int)
    | Num(token: nat)
    | Str(s: string)
    | Array(ref: nat, elems: seq<JsValue>)
    | Object(ref: nat, props: map<string, JsValue>)

  /** A normalised key: an immutable value compared by structure only. */
  datatype Key =
    | KUndefined
    | KNull
    | KBool(b: bool)
    | KInt(i: int)
    | KNum(token: nat)
    | KStr(s: string)
    | KList(items: seq<Key>)
    | KMap(entries: map<string, Key>)

  /** Deep conversion of arrays to lists and of plain objects to maps; scalars are kept. */
  function FromJS(v: JsValue): Key {
    match v
    case Undefined => KUndefined
    case Null => KNull
    case Bool(b) => KBool(b)
    case Int(i) => KInt(i)
    case Num(t) => KNum(t)
    case Str(s) => KStr(s)
    case Array(_, es) => KList(seq(|es|, i requires 0 <= i < |es| => FromJS(es[i])))
    case Object(_, ps) => KMap(map p | p in ps :: FromJS(ps[p]))
  }

  /**
   * Deep structural equality, the reference definition of when two keys are
   * "the same": same shape and same scalars everywhere, whatever the
   * allocations of the arrays and objects involved.
   */
  predicate Same(a: JsValue, b: JsValue) {
    if a.Array? && b.Array? then
      |a.elems| == |b.elems| && forall i :: 0 <= i < |a.elems| ==> Same(a.elems[i], b.elems[i])
    else if a.Object? && b.Object? then
      a.props.Keys == b.props.Keys && forall p :: p in a.props ==> Same(a.props[p], b.props[p])
    else
      a == b
  }

  /** `null` is the same only as `null`, on either side. */
  lemma SameAsNull(v: JsValue)
    ensures Same(v, Null) <==> v == Null
    ensures Same(Null, v) <==> v == Null
  {
  }

  /** Normalised keys are equal exactly when the values are structurally the same. */
  lemma {:induction false} FromJSIffSame(a: JsValue, b: JsValue)
    ensures FromJS(a) == FromJS(b) <==> Same(a, b)
  {
    if a.Array? && b.Array? {
      if FromJS(a) == FromJS(b) {
        assert |a.elems| == |FromJS(a).items| == |FromJS(b).items| == |b.elems|;
        forall i | 0 <= i < |a.elems|
          ensures Same(a.elems[i], b.elems[i])
        {
          assert FromJS(a).items[i] == FromJS(b).items[i];
          FromJSIffSame(a.elems[i], b.elems[i]);
        }
      }
      if Same(a, b) {
        forall i | 0 <= i < |a.elems|
          ensures FromJS(a).items[i] == FromJS(b).items[i]
        {
          FromJSIffSame(a.elems[i], b.elems[i]);
        }
      }
    } else if a.Object? && b.Object? {
      if FromJS(a) == FromJS(b) {
        assert a.props.Keys == FromJS(a).entries.Keys == FromJS(b).entries.Keys == b.props.Keys;
        forall p | p in a.props
          ensures Same(a.props[p], b.props[p])
        {
          assert FromJS(a).entries[p] == FromJS(b).entries[p];
          FromJSIffSame(a.props[p], b.props[p]);
        }
      }
      if Same(a, b) {
        forall p | p in a.props
          ensures FromJS(a).entries[p] == FromJS(b).entries[p]
        {
          FromJSIffSame(a.props[p], b.props[p]);
        }
      }
    }
  }

  /** JavaScript `===`: value comparison on scalars, identity on arrays and objects. */
  predicate StrictEquals(a: JsValue, b: JsValue) {
    if a.Array? && b.Array? then a.ref == b.ref
    else if a.Object? && b.Object? then a.ref == b.ref
    else a == b
  }

  /** On scalars `===` and structural sameness agree. */
  lemma StrictEqualsOnScalars(a: JsValue, b: JsValue)
    requires !a.Array? && !a.Object?
    ensures StrictEquals(a, b) <==> Same(a, b)
  {
  }

  /**
   * The asymmetry between the two comparisons: two array literals with equal
   * elements are one key, but never `===` to each other.
   */
  lemma ArrayLiteralsSameButNotStrict(r1: nat, r2: nat, es: seq<JsValue>)
    requires r1 != r2
    ensures FromJS(Array(r1, es)) == FromJS(Array(r2, es))
    ensures !StrictEquals(Array(r1, es), Array(r2, es))
  {
  }

  // ---------------------------------------------------------------------------
  // parseInt(x, 10)
  // ---------------------------------------------------------------------------

  predicate IsDigit(c: char) {
    '0' <= c <= '9'
  }

  function DigitValue(c: char): nat
    requires IsDigit(c)
  {
    (c - '0') as nat
  }

  function DigitChar(d: nat): (c: char)
    requires d < 10
    ensures IsDigit(c) && DigitValue(c) == d
  {
    ('0' as int + d) as char
  }

  predicate AllDigits(s: string) {
    forall i :: 0 <= i < |s| ==> IsDigit(s[i])
  }

  /** The longest prefix of `s` made of decimal digits. */
  function LeadingDigits(s: string): (d: string)
    ensures AllDigits(d) && d <= s
    ensures |d| < |s| ==> !IsDigit(s[|d|])
  {
    if |s| > 0 && IsDigit(s[0]) then [s[0]] + LeadingDigits(s[1..]) else []
  }

  /** The number a string of decimal digits denotes, most significant digit first. */
  function DigitsValue(d: string): nat
    requires AllDigits(d)
  {
    if |d| == 0 then 0 else DigitsValue(d[..|d| - 1]) * 10 + DigitValue(d[|d| - 1])
  }

  /** The decimal rendering of a natural number, without leading zeros. */
  function Decimal(n: nat): (s: string)
    ensures |s| > 0 && AllDigits(s)
  {
    if n < 10 then [DigitChar(n)] else Decimal(n / 10) + [DigitChar(n % 10)]
  }

  /** The decimal rendering of an integer, with a leading `-` when negative. */
  function SignedDecimal(n: int): string {
    if n < 0 then "-" + Decimal(-n) else Decimal(n)
  }

  /**
   * `parseInt(s, 10)` on a string: an optional sign followed by the maximal run
   * of digits; no digits at all is NaN, modelled as absent. Characters after
   * the run of digits are ignored.
   */
  function ParseIntString(s: string): Option<int> {
    var signed := |s| > 0 && (s[0] == '-' || s[0] == '+');
    var digits := LeadingDigits(if signed then s[1..] else s);
    if digits == [] then None
    else
      var magnitude: int := DigitsValue(digits);
      Some(if signed && s[0] == '-' then -magnitude else magnitude)
  }

  /**
   * `parseInt(v, 10)` on the values an identifier can arrive as: an integer
   * is itself, a string is parsed; anything else (undefined, null, ...) is NaN,
   * which no identifier equals, modelled as absent.
   */
  function ParseInt(v: JsValue): Option<int> {
    match v
    case Int(n) => Some(n)
    case Str(s) => ParseIntString(s)
    case _ => None
  }

  lemma {:induction false} LeadingDigitsOfDigits(s: string, rest: string)
    requires AllDigits(s)
    requires rest == [] || !IsDigit(rest[0])
    ensures LeadingDigits(s + rest) == s
  {
    if |s| > 0 {
      assert (s + rest)[1..] == s[1..] + rest;
      LeadingDigitsOfDigits(s[1..], rest);
    } else {
      assert s + rest == rest;
    }
  }

  lemma {:induction false} DigitsValueOfDecimal(n: nat)
    ensures DigitsValue(Decimal(n)) == n
  {
    if n >= 10 {
      var d := Decimal(n / 10) + [DigitChar(n % 10)];
      assert d[..|d| - 1] == Decimal(n / 10);
      DigitsValueOfDecimal(n / 10);
    }
  }

  /** The unsigned part: digits, then anything that does not start with a digit. */
  lemma ParseUnsigned(m: nat, rest: string)
    requires rest == [] || !IsDigit(rest[0])
    ensures LeadingDigits(Decimal(m) + rest) == Decimal(m)
    ensures DigitsValue(LeadingDigits(Decimal(m) + rest)) == m
  {
    LeadingDigitsOfDigits(Decimal(m), rest);
    DigitsValueOfDecimal(m);
  }

  lemma ParseNonNegative(n: nat, rest: string)
    requires rest == [] || !IsDigit(rest[0])
    ensures ParseIntString(Decimal(n) + rest) == Some(n)
  {
    var text := Decimal(n) + rest;
    ParseUnsigned(n, rest);
    assert text[0] == Decimal(n)[0];
    assert !(text[0] == '-' || text[0] == '+');
  }

  lemma ParseNegative(m: nat, rest: string)
    requires rest == [] || !IsDigit(rest[0])
    ensures ParseIntString(['-'] + (Decimal(m) + rest)) == Some(-(m as int))
  {
    var tail := Decimal(m) + rest;
    ParseUnsigned(m, rest);
    assert (['-'] + tail)[1..] == tail;
  }

  lemma ParseNegativeDecimal(n: int, rest: string)
    requires n < 0 && (rest == [] || !IsDigit(rest[0]))
    ensures ParseIntString(SignedDecimal(n) + rest) == Some(n)
  {
    var m: nat := -n;
    var d := Decimal(m);
    assert SignedDecimal(n) == ['-'] + d;
    assert SignedDecimal(n) + rest == ['-'] + (d + rest);
    ParseNegative(m, rest);
    assert -(m as int) == n;
  }

  /**
   * `getById` accepts an identifier as text: the decimal rendering of an
   * integer, even followed by non-digit characters, parses back to the integer
   * itself, so it finds what the integer finds.
   */
  lemma ParseIntOfDecimal(n: int, rest: string)
    requires rest == [] || !IsDigit(rest[0])
    ensures ParseInt(Str(SignedDecimal(n) + rest)) == ParseInt(Int(n)) == Some(n)
  {
    if n < 0 {
      ParseNegativeDecimal(n, rest);
    } else {
      ParseNonNegative(n, rest);
    }
  }

  /**
   * Keys do not get that coercion: an identifier as text and the identifier as
   * a number are two different keys.
   */
  lemma DecimalKeyDiffersFromInt(n: int)
    ensures FromJS(Str(SignedDecimal(n))) != FromJS(Int(n))
  {
  }
}
