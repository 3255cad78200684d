// Parsed JSON and YAML documents.
module JsonValues {
  import opened Basics

  datatype Fraction = Fraction(numerator: int, denominator: nat)

  predicate Divides(d: nat, n: int) {
    d != 0 && n % d == 0
  }

  ghost predicate Reduced(q: Fraction) {
    q.denominator != 0 && forall d: nat :: Divides(d, q.numerator) && Divides(d, q.denominator) ==> d == 1
  }

  // A finite number, as a fraction in lowest terms.
  type Rational = q: Fraction | Reduced(q) witness Fraction(0, 1)

  // A number the parser reads as infinite carries no value.
  datatype Json =
    | Null
    | Bool(b: bool)
    | Num(n: Option<Rational>)
    | Str(s: string)
    | Arr(items: seq<Json>)
    | Obj(fields: map<string, Json>)

  function Whole(n: int): Json {
    assert Reduced(Fraction(n, 1));
    Num(Some(Fraction(n, 1)))
  }

  type Record = map<string, Json>

  // The value of a key, null when it is absent.
  function Get(fields: Record, key: string): Json {
    if key in fields then fields[key] else Null
  }
}
