/** Raw request payloads as the "before" model validators see them: a JSON
    object decoded into a Python dict, before any field is type-checked. */
module Json {
  import opened Wrappers
  import opened Ascii

  /** A decoded JSON value. Lists, objects and floats are `Other`, carrying
      only their Python truthiness. */
  datatype Value = Null | Bool(b: bool) | Int(i: int) | Text(s: string) | Other(truthy: bool)

  type Object = map<string, Value>

  /** `values.get(key)`: a missing key reads as `None`. */
  function Get(o: Object, key: string): (v: Value)
    ensures key !in o ==> v == Null
    ensures key in o ==> v == o[key]
  {
    if key in o then o[key] else Null
  }

  /** Python truthiness. */
  predicate Truthy(v: Value) {
    match v
    case Null => false
    case Bool(b) => b
    case Int(i) => i != 0
    case Text(s) => s != ""
    case Other(t) => t
  }

  /** Python's `<` on two strings: code-point lexicographic order. */
  predicate StrLess(a: string, b: string) {
    if |a| == 0 then |b| > 0
    else if |b| == 0 then false
    else if a[0] != b[0] then a[0] < b[0]
    else StrLess(a[1..], b[1..])
  }

  lemma {:induction false} StrLessIrreflexive(a: string)
    ensures !StrLess(a, a)
  {
    if |a| > 0 {
      StrLessIrreflexive(a[1..]);
    }
  }

  lemma {:induction false} StrLessTrichotomy(a: string, b: string)
    ensures a == b || StrLess(a, b) || StrLess(b, a)
    ensures !(StrLess(a, b) && StrLess(b, a))
  {
    if |a| > 0 && |b| > 0 && a[0] == b[0] {
      StrLessTrichotomy(a[1..], b[1..]);
      if a[1..] == b[1..] {
        assert a == [a[0]] + a[1..] && b == [b[0]] + b[1..];
      }
    }
  }

  /** The numeric value of an `int` or `bool` (Python's `True == 1`). */
  function Numeric(v: Value): int
    requires v.Int? || v.Bool?
  {
    if v.Int? then v.i else if v.b then 1 else 0
  }

  /** Python's `a > b` on two raw values: strings compare lexicographically,
      numbers numerically, and any other pair raises `TypeError`. */
  function Greater(a: Value, b: Value): (r: Result<bool>)
    ensures r.Ok? <==> (a.Text? && b.Text?) || ((a.Int? || a.Bool?) && (b.Int? || b.Bool?))
    ensures r.Ok? && a.Text? ==> (r.value <==> StrLess(b.s, a.s))
    ensures r.Ok? && !a.Text? ==> (r.value <==> Numeric(a) > Numeric(b))
    ensures r.Err? ==> r.error.Crash?
  {
    if a.Text? && b.Text? then Ok(StrLess(b.s, a.s))
    else if (a.Int? || a.Bool?) && (b.Int? || b.Bool?) then Ok(Numeric(a) > Numeric(b))
    else Err(Crash("TypeError: '>' not supported between these operand types"))
  }

  /** No comparable value is greater than itself. */
  lemma GreaterIrreflexive(v: Value)
    requires Greater(v, v).Ok?
    ensures Greater(v, v) == Ok(false)
  {
    if v.Text? {
      StrLessIrreflexive(v.s);
    }
  }
}
