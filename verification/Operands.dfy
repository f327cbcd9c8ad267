/** The folds over the operand values of one cell: sum, difference, product and quotient. */
module Operands {
  import opened Wrappers
  import opened Streams

  /** Operand values of a cell; None where the operand has no value there. */
  type Values = seq<Option<CellValue>>

  predicate NumericOrMissing(v: Option<CellValue>)
  {
    v.None? || v.value.IsNumeric()
  }

  /** The number an operand stands for; a missing value counts as 0. */
  function NumberOf(v: Option<CellValue>): real
  {
    if v.Some? && v.value.IsNumeric() then v.value.GetNumeric() else 0.0
  }

  /** A number assigned to a cell value: 0 makes it empty. */
  function Number(x: real): (v: CellValue)
    ensures v.IsNumeric() && v.GetNumeric() == x
  {
    if x == 0.0 then Null else Numeric(x)
  }

  predicate IsNumber(v: CellValue)
  {
    v.IsNumeric() && v == Number(v.GetNumeric())
  }

  function Total(vs: Values): real
  {
    if vs == [] then 0.0 else Total(vs[..|vs| - 1]) + NumberOf(vs[|vs| - 1])
  }

  function Product(vs: Values): real
  {
    if vs == [] then 1.0 else Product(vs[..|vs| - 1]) * NumberOf(vs[|vs| - 1])
  }

  /** Whether all operands are numbers; otherwise the first that is not decides the result. */
  ghost predicate FirstOdd(vs: Values, n: int)
  {
    && 0 <= n <= |vs|
    && (forall i :: 0 <= i < n ==> NumericOrMissing(vs[i]))
    && (n < |vs| ==> !NumericOrMissing(vs[n]))
  }

  /** The number, empty if it is 0; an error is passed on as the value of the cell; a text is an exception. */
  ghost predicate Combined(vs: Values, number: real, r: Result<CellValue>)
  {
    && ((forall i :: 0 <= i < |vs| ==> NumericOrMissing(vs[i])) ==> r == Success(Number(number)))
    && (forall n :: FirstOdd(vs, n) && n < |vs| && vs[n].value.Error? ==> r == Success(vs[n].value))
    && (forall n :: FirstOdd(vs, n) && n < |vs| && vs[n].value.Text? ==> r.Failure?)
  }

  lemma CombinedOdd(vs: Values, number: real, r: Result<CellValue>, n: nat)
    requires FirstOdd(vs, n) && n < |vs|
    requires if vs[n].value.Error? then r == Success(vs[n].value) else r.Failure?
    ensures Combined(vs, number, r)
  {
    forall m | FirstOdd(vs, m)
      ensures m == n
    {
    }
  }

  /** Addition: the sum of the values the operands have. */
  method AddValues(vs: Values) returns (r: Result<CellValue>)
    ensures Combined(vs, Total(vs), r)
  {
    var numValue := 0.0;
    for i := 0 to |vs|
      invariant numValue == Total(vs[..i]) && forall j :: 0 <= j < i ==> NumericOrMissing(vs[j])
    {
      assert vs[..i + 1][..i] == vs[..i];
      if vs[i].Some? {
        var operand := vs[i].value;
        if operand.IsNumeric() {
          numValue := numValue + operand.GetNumeric();
        } else if operand.Error? {
          CombinedOdd(vs, Total(vs), Success(operand), i);
          return Success(operand);
        } else {
          CombinedOdd(vs, Total(vs), Failure("invalid operand type"), i);
          return Failure("invalid operand type");
        }
      }
    }
    assert vs[..|vs|] == vs;
    r := Success(Number(numValue));
  }

  /** What a subtraction makes of its operands: the first, less all others. */
  function Difference(vs: Values): real
  {
    if vs == [] then 0.0 else NumberOf(vs[0]) - Total(vs[1..])
  }

  /** Subtraction: a missing first operand counts as 0. */
  method SubtractValues(vs: Values) returns (r: Result<CellValue>)
    ensures Combined(vs, Difference(vs), r)
  {
    var numValue := 0.0;
    for i := 0 to |vs|
      invariant numValue == Difference(vs[..i]) && forall j :: 0 <= j < i ==> NumericOrMissing(vs[j])
    {
      if i > 0 {
        assert vs[..i + 1][1..][..i - 1] == vs[..i][1..];
        assert vs[..i + 1][1..][i - 1] == vs[i];
      } else {
        assert vs[..1][1..] == [];
      }
      if vs[i].Some? {
        var operand := vs[i].value;
        if operand.IsNumeric() {
          if i == 0 {
            numValue := operand.GetNumeric();
          } else {
            numValue := numValue - operand.GetNumeric();
          }
        } else if operand.Error? {
          CombinedOdd(vs, Difference(vs), Success(operand), i);
          return Success(operand);
        } else {
          CombinedOdd(vs, Difference(vs), Failure("invalid operand type"), i);
          return Failure("invalid operand type");
        }
      }
    }
    assert vs[..|vs|] == vs;
    r := Success(Number(numValue));
  }

  /** Multiplication: every operand has a value, constants included. */
  method MultiplyValues(vs: Values) returns (r: Result<CellValue>)
    requires forall i :: 0 <= i < |vs| ==> vs[i].Some?
    ensures Combined(vs, Product(vs), r)
  {
    var numValue := 1.0;
    for i := 0 to |vs|
      invariant numValue == Product(vs[..i]) && forall j :: 0 <= j < i ==> NumericOrMissing(vs[j])
    {
      assert vs[..i + 1][..i] == vs[..i];
      var operand := vs[i].value;
      if operand.IsNumeric() {
        numValue := numValue * operand.GetNumeric();
      } else if operand.Error? {
        CombinedOdd(vs, Product(vs), Success(operand), i);
        return Success(operand);
      } else {
        CombinedOdd(vs, Product(vs), Failure("invalid operand type"), i);
        return Failure("invalid operand type");
      }
    }
    assert vs[..|vs|] == vs;
    r := Success(Number(numValue));
  }

  // ------------------------------------------------------------------------------------------
  // Division
  // ------------------------------------------------------------------------------------------

  /** The first operand that ends a division: an empty value, or one that is no number. */
  ghost predicate FirstStop(vs: Values, n: int)
  {
    && 0 <= n <= |vs|
    && (forall i :: 0 <= i < n ==> vs[i].Some? && vs[i].value.Numeric?)
    && (n < |vs| ==> !(vs[n].Some? && vs[n].value.Numeric?))
  }

  predicate DividesByZero(vs: Values)
  {
    exists i :: 0 < i < |vs| && NumberOf(vs[i]) == 0.0
  }

  /** The numerator over the product of the divisors; 0 as soon as a divisor is 0. */
  ghost predicate QuotientOf(vs: Values, q: real)
    requires vs != []
  {
    if DividesByZero(vs) then q == 0.0 else q * Product(vs[1..]) == NumberOf(vs[0])
  }

  /** An empty operand, the first included, makes the result 0 and hides everything behind it. */
  ghost predicate Divided(vs: Values, r: Result<CellValue>)
  {
    && (FirstStop(vs, |vs|) && vs != [] ==> r.Success? && IsNumber(r.value) && QuotientOf(vs, r.value.GetNumeric()))
    && (vs == [] ==> r == Success(Null))
    && (forall n :: FirstStop(vs, n) && n < |vs| && vs[n] == Some(Null) ==> r == Success(Null))
    && (forall n :: FirstStop(vs, n) && n < |vs| && vs[n].Some? && vs[n].value.Error? ==> r == Success(vs[n].value))
    && (forall n :: FirstStop(vs, n) && n < |vs| && vs[n].Some? && vs[n].value.Text? ==> r.Failure?)
  }

  lemma DividedStop(vs: Values, r: Result<CellValue>, n: nat)
    requires FirstStop(vs, n) && n < |vs| && vs[n].Some?
    requires match vs[n].value
      case Null => r == Success(Null)
      case Error(_) => r == Success(vs[n].value)
      case _ => r.Failure?
    ensures Divided(vs, r)
  {
    forall m | FirstStop(vs, m)
      ensures m == n
    {
    }
  }

  lemma QuotientStep(vs: Values, v: Option<CellValue>, q: real, q': real)
    requires vs != [] && QuotientOf(vs, q)
    requires if NumberOf(v) == 0.0 then q' == 0.0 else q' * NumberOf(v) == q
    ensures QuotientOf(vs + [v], q')
  {
    var vs' := vs + [v];
    assert vs'[1..][..|vs| - 1] == vs[1..] && vs'[1..][|vs| - 1] == v;
    if DividesByZero(vs) {
      var i :| 0 < i < |vs| && NumberOf(vs[i]) == 0.0;
      assert NumberOf(vs'[i]) == 0.0;
      if NumberOf(v) != 0.0 {
        assert q' == 0.0;
      }
    } else if NumberOf(v) == 0.0 {
      assert NumberOf(vs'[|vs|]) == 0.0;
    } else {
      assert !DividesByZero(vs');
      Regroup(q', NumberOf(v), Product(vs[1..]));
    }
  }

  lemma Regroup(x: real, y: real, p: real)
    ensures (x * y) * p == x * (p * y)
  {
  }

  method DivideValues(vs: Values) returns (r: Result<CellValue>)
    requires forall i :: 0 <= i < |vs| ==> vs[i].Some?
    ensures Divided(vs, r)
  {
    var numValue := 0.0;
    var isNumerator := true;
    for i := 0 to |vs|
      invariant isNumerator <==> i == 0
      invariant i == 0 ==> numValue == 0.0
      invariant i > 0 ==> QuotientOf(vs[..i], numValue)
      invariant forall j :: 0 <= j < i ==> vs[j].value.Numeric?
    {
      hide QuotientOf, Divided, FirstStop, Product;
      var operand := vs[i].value;
      if operand.Null? {
        assert FirstStop(vs, i) by { Stops(vs, i); }
        DividedStop(vs, Success(Number(0.0)), i);
        return Success(Number(0.0));
      } else if operand.Numeric? {
        assert vs[..i + 1] == vs[..i] + [vs[i]];
        if isNumerator {
          FirstQuotient(vs[..1]);
          numValue := operand.value;
        } else {
          var divided := if operand.value == 0.0 then 0.0 else numValue / operand.value;
          QuotientStep(vs[..i], vs[i], numValue, divided);
          numValue := divided;
        }
      } else if operand.Error? {
        assert FirstStop(vs, i) by { Stops(vs, i); }
        DividedStop(vs, Success(operand), i);
        return Success(operand);
      } else {
        assert FirstStop(vs, i) by { Stops(vs, i); }
        DividedStop(vs, Failure("invalid operand type"), i);
        return Failure("invalid operand type");
      }
      isNumerator := false;
    }
    assert vs[..|vs|] == vs;
    r := Success(Number(numValue));
    DividedWhole(vs, numValue);
  }

  lemma Stops(vs: Values, n: nat)
    requires n < |vs| && (forall i :: 0 <= i < |vs| ==> vs[i].Some?)
    requires (forall i :: 0 <= i < n ==> vs[i].value.Numeric?) && !vs[n].value.Numeric?
    ensures FirstStop(vs, n)
  {
  }

  lemma FirstQuotient(vs: Values)
    requires |vs| == 1 && vs[0].Some? && vs[0].value.Numeric?
    ensures QuotientOf(vs, vs[0].value.value)
  {
    assert vs[1..] == [];
  }

  lemma DividedWhole(vs: Values, q: real)
    requires forall i :: 0 <= i < |vs| ==> vs[i].Some? && vs[i].value.Numeric?
    requires if vs == [] then q == 0.0 else QuotientOf(vs, q)
    ensures Divided(vs, Success(Number(q)))
  {
    hide QuotientOf;
  }

  // ------------------------------------------------------------------------------------------
  // What the four operations amount to
  // ------------------------------------------------------------------------------------------

  ghost predicate AllNumbers(vs: Values)
  {
    forall i :: 0 <= i < |vs| ==> NumericOrMissing(vs[i])
  }

  /** The result is a number: this one. */
  ghost predicate Gives(r: Result<CellValue>, number: real)
  {
    r.Success? && r.value.IsNumeric() && r.value.GetNumeric() == number
  }

  /** The number of a single operand: 0 where it is missing. */
  ghost predicate Single(v: Option<CellValue>, number: real)
  {
    match v
    case None => number == 0.0
    case Some(x) => x.IsNumeric() && x.GetNumeric() == number
  }

  /** A sum of one operand is its number, and a sum of operands in two parts is the sum of both sums. */
  lemma SumOfParts(a: Values, b: Values, ra: Result<CellValue>, rb: Result<CellValue>, r: Result<CellValue>)
    requires AllNumbers(a) && AllNumbers(b)
    requires Combined(a, Total(a), ra) && Combined(b, Total(b), rb) && Combined(a + b, Total(a + b), r)
    ensures ra.Success? && rb.Success? && ra.value.IsNumeric() && rb.value.IsNumeric()
    ensures Gives(r, ra.value.GetNumeric() + rb.value.GetNumeric())
    ensures |a| == 1 ==> Single(a[0], ra.value.GetNumeric())
    ensures a == [] ==> Gives(ra, 0.0)
  {
    TotalConcat(a, b);
    assert |a| == 1 ==> a[..0] == [];
  }

  lemma {:induction false} TotalConcat(a: Values, b: Values)
    ensures Total(a + b) == Total(a) + Total(b)
  {
    if b == [] {
      assert a + b == a;
    } else {
      assert (a + b)[..|a + b| - 1] == a + b[..|b| - 1];
      TotalConcat(a, b[..|b| - 1]);
    }
  }

  /** A product of one operand is its number, and a product of operands in two parts is the product of both products. */
  lemma ProductOfParts(a: Values, b: Values, ra: Result<CellValue>, rb: Result<CellValue>, r: Result<CellValue>)
    requires AllNumbers(a) && AllNumbers(b)
    requires Combined(a, Product(a), ra) && Combined(b, Product(b), rb) && Combined(a + b, Product(a + b), r)
    ensures ra.Success? && rb.Success? && ra.value.IsNumeric() && rb.value.IsNumeric()
    ensures Gives(r, ra.value.GetNumeric() * rb.value.GetNumeric())
    ensures |a| == 1 ==> Single(a[0], ra.value.GetNumeric())
    ensures a == [] ==> Gives(ra, 1.0)
  {
    hide Product;
    ProductConcat(a, b);
    ProductSingle(a);
  }

  lemma ProductSingle(vs: Values)
    ensures vs == [] ==> Product(vs) == 1.0
    ensures |vs| == 1 ==> Product(vs) == NumberOf(vs[0])
  {
    assert |vs| == 1 ==> vs[..0] == [];
  }

  lemma {:induction false} ProductConcat(a: Values, b: Values)
    ensures Product(a + b) == Product(a) * Product(b)
  {
    if b == [] {
      assert a + b == a;
    } else {
      assert (a + b)[..|a + b| - 1] == a + b[..|b| - 1];
      ProductConcat(a, b[..|b| - 1]);
      Regroup(Product(a), Product(b[..|b| - 1]), NumberOf(b[|b| - 1]));
    }
  }

  /** A difference and the sum of all operands but the first make up the first, which is 0 where it is missing. */
  lemma DifferenceAndSum(vs: Values, d: Result<CellValue>, s: Result<CellValue>)
    requires vs != [] && AllNumbers(vs)
    requires Combined(vs, Difference(vs), d) && Combined(vs[1..], Total(vs[1..]), s)
    ensures d.Success? && s.Success? && d.value.IsNumeric() && s.value.IsNumeric()
    ensures Single(vs[0], d.value.GetNumeric() + s.value.GetNumeric())
  {
    hide Total;
  }

  /** A quotient times the product of the divisors is the numerator; with a divisor of 0 the quotient is 0. */
  lemma QuotientAndProduct(vs: Values, q: Result<CellValue>, p: Result<CellValue>)
    requires vs != [] && forall i :: 0 <= i < |vs| ==> vs[i].Some? && vs[i].value.Numeric?
    requires Divided(vs, q) && Combined(vs[1..], Product(vs[1..]), p)
    ensures q.Success? && p.Success? && q.value.IsNumeric() && p.value.IsNumeric()
    ensures if p.value.GetNumeric() == 0.0 then q.value.GetNumeric() == 0.0
      else q.value.GetNumeric() * p.value.GetNumeric() == vs[0].value.GetNumeric()
  {
    hide Product;
    assert FirstStop(vs, |vs|);
    ProductZero(vs[1..]);
    if DividesByZero(vs) {
      var i :| 0 < i < |vs| && NumberOf(vs[i]) == 0.0;
      assert vs[1..][i - 1] == vs[i];
    }
  }

  /** A product is 0 exactly if some operand is. */
  lemma {:induction false} ProductZero(vs: Values)
    ensures Product(vs) == 0.0 <==> exists i :: 0 <= i < |vs| && NumberOf(vs[i]) == 0.0
  {
    if vs != [] {
      var n := |vs| - 1;
      ProductZero(vs[..n]);
      assert forall i :: 0 <= i < n ==> vs[..n][i] == vs[i];
    }
  }
}
