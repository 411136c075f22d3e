/** The JavaScript values a parsed JSON request body can hold, and the few coercions the
    body validators apply to them: truthiness, property reads, `typeof … === 'string'`
    with a non-blank `trim()`, and `Number(…)`. */
module JsValues {
  import opened Text

  /** `Undefined` is what reading a missing property gives; `Fraction` is any number that is
      not an integer (1900.5, or `Infinity` from an over-long numeral). */
  datatype JsValue =
    | Undefined
    | Null
    | Bool(b: bool)
    | Int(i: int)
    | Fraction
    | Str(s: string)
    | Arr(items: seq<JsValue>)
    | Obj(fields: map<string, JsValue>)

  /** How a JavaScript evaluation ends: with a value, or by throwing a `TypeError`. */
  datatype Completion<T> = Normal(value: T) | TypeError

  predicate Nullish(v: JsValue) {
    v.Undefined? || v.Null?
  }

  /** `!!v`: `undefined`, `null`, `false`, `0` and `""` are the falsy values JSON can give. */
  predicate Truthy(v: JsValue) {
    match v
    case Undefined => false
    case Null => false
    case Bool(b) => b
    case Int(i) => i != 0
    case Fraction => true
    case Str(s) => s != ""
    case Arr(_) => true
    case Obj(_) => true
  }

  /** `v[key]` on a value that is not null or undefined, for the body keys the validators
      read (`title`, `publishedIn`, `year`, `authors`, `name`): only an object can own them. */
  function Get(v: JsValue, key: string): (r: JsValue)
    ensures !v.Obj? ==> r == Undefined
  {
    if v.Obj? && key in v.fields then v.fields[key] else Undefined
  }

  /** `v.key`: throws exactly when `v` is null or undefined. */
  function Prop(v: JsValue, key: string): Completion<JsValue> {
    if Nullish(v) then TypeError else Normal(Get(v, key))
  }

  /** The negation of `!v || typeof v !== 'string' || v.trim().length === 0`. */
  predicate IsText(v: JsValue) {
    v.Str? && HasText(v.s)
  }

  lemma IsTextIffVisible(v: JsValue)
    ensures IsText(v) <==> v.Str? && !IsBlank(v.s)
  {
    if v.Str? {
      TrimEmptyIffBlank(v.s);
    }
  }

  /** What `Number(v)` yields, as far as `Number.isInteger` and a comparison with an integer
      can tell: an integer value, or something that is not one (NaN, a fraction, ±Infinity). */
  datatype NumView = Integral(n: int) | NotInteger

  /** 2^1024 - 2^970, halfway between the largest finite double and 2^1024: a decimal
      numeral whose value reaches it is rounded to `Infinity`. */
  const DoubleOverflow: nat := 0xFFFF_FFFF_FFFF_FC00_0000_0000_0000_0000_0000_0000_0000_0000_0000_0000_0000_0000_0000_0000_0000_0000_0000_0000_0000_0000_0000_0000_0000_0000_0000_0000_0000_0000_0000_0000_0000_0000_0000_0000_0000_0000_0000_0000_0000_0000_0000_0000_0000_0000_0000_0000_0000_0000_0000_0000_0000_0000_0000_0000_0000_0000_0000_0000_0000_0000

  /** `Number(s)` for a string: surrounding white space is ignored, an empty or blank string
      is 0, and a run of decimal digits is its value, or `Infinity` (not an integer) once that
      value reaches `DoubleOverflow`. Other numerals (signs, decimal points, exponents, radix
      prefixes) are read as not an integer. */
  function NumberOfString(s: string): (r: NumView)
    ensures r.Integral? ==> 0 <= r.n < DoubleOverflow
    ensures r.Integral? && r.n > 0 <==> IsDigits(Trim(s)) && 0 < DecimalValue(Trim(s)) < DoubleOverflow
    ensures r.Integral? && r.n > 0 ==> r.n == DecimalValue(Trim(s))
  {
    var t := Trim(s);
    if t == [] then Integral(0)
    else if IsDigits(t) && DecimalValue(t) < DoubleOverflow then Integral(DecimalValue(t))
    else NotInteger
  }

  /** `Number(v)`. A one-element array converts through its element's string form, which
      differs from converting the element itself only for booleans ("true" is NaN) and
      `undefined` ("" is 0); longer arrays contain a comma and are NaN. */
  function NumberOf(v: JsValue): (r: NumView)
    ensures r.Integral? && r.n != 0 ==> Truthy(v)
  {
    match v
    case Undefined => NotInteger
    case Null => Integral(0)
    case Bool(b) => Integral(if b then 1 else 0)
    case Int(i) => Integral(i)
    case Fraction => NotInteger
    case Str(s) => NumberOfString(s)
    case Arr(items) =>
      if |items| == 0 then Integral(0)
      else if |items| > 1 || items[0].Bool? then NotInteger
      else if items[0].Undefined? then Integral(0)
      else NumberOf(items[0])
    case Obj(_) => NotInteger
  }
}
