/**
 The integers of the language: exact within plus or minus 2^53 - 1, an error
 outside, in every operation and in the texts that spell them.
 */
module Numbers {
  import opened Options

  const ZY_INT_MAX: int := 9007199254740991
  const ZY_INT_MIN: int := -ZY_INT_MAX
  const I64_BOUND: int := 0x8000_0000_0000_0000
  const U32_MAX: nat := 4294967295

  type I64 = n: int | -I64_BOUND <= n < I64_BOUND

  predicate InIntRange(n: int) {
    ZY_INT_MIN <= n <= ZY_INT_MAX
  }

  /** A machine operation that reports overflow instead of wrapping. */
  function Machine(exact: int): Option<I64> {
    if -I64_BOUND <= exact < I64_BOUND then Some(exact) else None
  }

  function Checked(v: I64): Option<int> {
    if InIntRange(v) then Some(v) else None
  }

  function AndChecked(v: Option<I64>): Option<int> {
    if v.Some? then Checked(v.value) else None
  }

  function Add(a: I64, b: I64): Option<int> { AndChecked(Machine(a + b)) }

  function Sub(a: I64, b: I64): Option<int> { AndChecked(Machine(a - b)) }

  function Mul(a: I64, b: I64): Option<int> { AndChecked(Machine(a * b)) }

  /** Whatever machine integers go in, the answer is the exact one if it is in range. */
  lemma OperationsExact(a: I64, b: I64)
    ensures Add(a, b) == if InIntRange(a + b) then Some(a + b) else None
    ensures Sub(a, b) == if InIntRange(a - b) then Some(a - b) else None
    ensures Mul(a, b) == if InIntRange(a * b) then Some(a * b) else None
  {
  }

  // --------------------------------------------------------------------------
  // Powers
  // --------------------------------------------------------------------------

  function Power(b: int, e: nat): int {
    if e == 0 then 1 else Power(b, e - 1) * b
  }

  function Abs(n: int): nat {
    if n < 0 then -n else n
  }

  lemma AbsProduct(a: int, b: int)
    ensures Abs(a * b) == Abs(a) * Abs(b)
  {
  }

  lemma TimesAtLeastTwo(x: nat, b: nat)
    requires b >= 2
    ensures x * b >= 2 * x
  {
    assert x * b == 2 * x + x * (b - 2);
  }

  /** Each factor of absolute value 2 or more at least doubles a power. */
  lemma PowerDoubles(b: int, e: nat)
    requires Abs(b) >= 2
    ensures Abs(Power(b, e + 1)) >= 2 * Abs(Power(b, e))
  {
    AbsProduct(Power(b, e), b);
    TimesAtLeastTwo(Abs(Power(b, e)), Abs(b));
  }

  lemma {:induction false} PowerAtLeast(b: int, e: nat)
    requires Abs(b) >= 2
    ensures Abs(Power(b, e)) >= Power(2, e) >= 1
  {
    if e > 0 {
      PowerAtLeast(b, e - 1);
      PowerDoubles(b, e - 1);
    }
  }

  /** A product that leaves the range never comes back. */
  lemma {:induction false} PowerStaysOut(b: int, i: nat, e: nat)
    requires Abs(b) >= 2 && i <= e && !InIntRange(Power(b, i))
    ensures !InIntRange(Power(b, e))
    decreases e
  {
    if i < e {
      PowerStaysOut(b, i, e - 1);
      PowerDoubles(b, e - 1);
    }
  }

  lemma {:induction false} PowerOfTwoGrows(i: nat, e: nat)
    requires i <= e
    ensures Power(2, i) <= Power(2, e)
    decreases e
  {
    if i < e {
      PowerOfTwoGrows(i, e - 1);
      PowerAtLeast(2, e - 1);
    }
  }

  lemma TwoToThe53()
    ensures Power(2, 53) == ZY_INT_MAX + 1
  {
    assert Power(2, 14) == 16384;
    assert Power(2, 27) == 134217728;
    assert Power(2, 40) == 1099511627776;
    assert Power(2, 53) == 9007199254740992;
  }

  lemma OutOfRangeFrom53(b: int, e: nat)
    requires Abs(b) >= 2 && e >= 53
    ensures !InIntRange(Power(b, e))
  {
    TwoToThe53();
    PowerOfTwoGrows(53, e);
    PowerAtLeast(b, e);
  }

  lemma {:induction false} SmallBases(e: nat)
    ensures Power(0, e) == if e == 0 then 1 else 0
    ensures Power(1, e) == 1
    ensures Power(-1, e) == if e % 2 == 0 then 1 else -1
  {
    if e > 0 {
      SmallBases(e - 1);
    }
  }

  /** The exact power, or `None` if it is out of range; at most 53 multiplications. */
  method Pow(base: I64, exp: nat) returns (r: Option<int>, ghost steps: nat)
    requires exp <= U32_MAX
    ensures r == if InIntRange(Power(base, exp)) then Some(Power(base, exp)) else None
    ensures steps <= 53
  {
    SmallBases(exp);
    steps := 0;
    if base == 0 {
      r := Some(if exp == 0 then 1 else 0);
      return;
    }
    if base == 1 {
      r := Some(1);
      return;
    }
    if base == -1 {
      r := Some(if exp % 2 == 0 then 1 else -1);
      return;
    }
    var acc: int := 1;
    var i := 0;
    while i < exp
      invariant i <= exp && acc == Power(base, i) && InIntRange(acc)
      invariant steps == i <= 52
    {
      steps := steps + 1;
      OperationsExact(acc, base);
      var product := Mul(acc, base);
      if product.None? {
        PowerStaysOut(base, i + 1, exp);
        r := None;
        return;
      }
      acc := product.value;
      i := i + 1;
      if i == 53 {
        OutOfRangeFrom53(base, i);
      }
    }
    r := Some(acc);
  }

  // --------------------------------------------------------------------------
  // Evaluation
  // --------------------------------------------------------------------------

  datatype Operator = Plus | Minus | Times | Divide | Modulo

  datatype Error =
    | Overflow(a: int, op: string, b: int)
    | DivisionByZero
    | ModuloByZero

  datatype Result = Ok(value: int) | Err(error: Error)

  function IntResult(v: Option<int>, a: int, op: string, b: int): Result {
    if v.Some? then Ok(v.value) else Err(Overflow(a, op, b))
  }

  /** Division of machine integers: the quotient loses its fraction. */
  function TruncDiv(a: int, b: int): int
    requires b != 0
  {
    if (a < 0) == (b < 0) then Abs(a) / Abs(b) else -(Abs(a) / Abs(b))
  }

  /** The remainder of machine integers: it has the sign of the dividend. */
  function TruncRem(a: int, b: int): int
    requires b != 0
  {
    if a < 0 then -(Abs(a) % Abs(b)) else Abs(a) % Abs(b)
  }

  /** `q` and `r` divide `a` by `b`, rounding toward zero. */
  predicate DividesInto(a: int, b: int, q: int, r: int) {
    a == q * b + r && Abs(r) < Abs(b) && (r != 0 ==> (r < 0) == (a < 0))
  }

  lemma NatDivision(a: nat, b: nat)
    requires b > 0
    ensures a == (a / b) * b + a % b && a / b <= a && a % b <= a
  {
    if a / b > a {
      TimesGrows(a / b, b);
    }
  }

  lemma TimesGrows(x: nat, b: nat)
    requires b > 0
    ensures x <= x * b
  {
    assert x * b == x + x * (b - 1);
  }

  lemma SignsOfProduct(q: int, b: int)
    ensures b >= 0 ==> q * b == q * Abs(b) && (-q) * b == -(q * Abs(b))
    ensures b < 0 ==> q * b == -(q * Abs(b)) && (-q) * b == q * Abs(b)
  {
  }

  /** Quotient and remainder fit together, and neither is larger than the dividend. */
  lemma TruncDivides(a: int, b: int)
    requires b != 0
    ensures DividesInto(a, b, TruncDiv(a, b), TruncRem(a, b))
    ensures Abs(TruncDiv(a, b)) <= Abs(a) && Abs(TruncRem(a, b)) <= Abs(a)
  {
    var q, r := Abs(a) / Abs(b), Abs(a) % Abs(b);
    NatDivision(Abs(a), Abs(b));
    SignsOfProduct(q, b);
    assert TruncDiv(a, b) == (if (a < 0) == (b < 0) then q else -q) && TruncRem(a, b) == if a < 0 then -r else r;
  }

  lemma MultipleIsLarge(k: int, b: int)
    requires k != 0 && b != 0
    ensures Abs(k * b) >= Abs(b)
  {
    AbsProduct(k, b);
    TimesGrows(Abs(b), Abs(k));
  }

  /** No other quotient and remainder do. */
  lemma TruncUnique(a: int, b: int, q: int, r: int)
    requires b != 0 && DividesInto(a, b, q, r)
    ensures q == TruncDiv(a, b) && r == TruncRem(a, b)
  {
    TruncDivides(a, b);
    SameQuotient(a, b, q, r, TruncDiv(a, b), TruncRem(a, b));
  }

  lemma SameQuotient(a: int, b: int, q: int, r: int, p: int, s: int)
    requires b != 0
    ensures DividesInto(a, b, q, r) && DividesInto(a, b, p, s) ==> q == p && r == s
  {
    Distributes(q, p, b);
    if q != p {
      MultipleIsLarge(q - p, b);
    }
  }

  lemma Distributes(q: int, p: int, b: int)
    ensures (q - p) * b == q * b - p * b
  {
  }

  /** The tree-walker's operators on two integers. */
  function EvalOperator(op: Operator, a: int, b: int): Result
    requires InIntRange(a) && InIntRange(b)
  {
    match op
    case Plus => IntResult(Add(a, b), a, "+", b)
    case Minus => IntResult(Sub(a, b), a, "-", b)
    case Times => IntResult(Mul(a, b), a, "*", b)
    case Divide => if b == 0 then Err(DivisionByZero) else Ok(TruncDiv(a, b))
    case Modulo => if b == 0 then Err(ModuloByZero) else Ok(TruncRem(a, b))
  }

  datatype Tree = Leaf(n: int) | Node(op: Operator, left: Tree, right: Tree)

  /** Every literal is an integer of the language. */
  predicate Literals(t: Tree) {
    match t
    case Leaf(n) => InIntRange(n)
    case Node(_, l, r) => Literals(l) && Literals(r)
  }

  lemma OperatorInRange(op: Operator, a: int, b: int)
    requires InIntRange(a) && InIntRange(b) && EvalOperator(op, a, b).Ok?
    ensures InIntRange(EvalOperator(op, a, b).value)
  {
    if (op.Divide? || op.Modulo?) && b != 0 {
      TruncDivides(a, b);
    }
  }

  /** Evaluation, left operand first. */
  function Eval(t: Tree): (r: Result)
    requires Literals(t)
    ensures r.Ok? ==> InIntRange(r.value)
  {
    match t
    case Leaf(n) => Ok(n)
    case Node(op, l, r) =>
      var a := Eval(l);
      if a.Err? then a
      else
        var b := Eval(r);
        if b.Err? then b
        else
          var v := EvalOperator(op, a.value, b.value);
          if v.Ok? then OperatorInRange(op, a.value, b.value); v else v
  }

  /** What a tree denotes over all the integers; nothing when a divisor is zero. */
  function Denotes(t: Tree): Option<int> {
    match t
    case Leaf(n) => Some(n)
    case Node(op, l, r) =>
      if Denotes(l).None? || Denotes(r).None? then None
      else
        var a, b := Denotes(l).value, Denotes(r).value;
        match op
        case Plus => Some(a + b)
        case Minus => Some(a - b)
        case Times => Some(a * b)
        case Divide => if b == 0 then None else Some(TruncDiv(a, b))
        case Modulo => if b == 0 then None else Some(TruncRem(a, b))
  }

  /** Every part of the tree denotes an integer of the language. */
  predicate Representable(t: Tree) {
    && Denotes(t).Some? && InIntRange(Denotes(t).value)
    && (t.Node? ==> Representable(t.left) && Representable(t.right))
  }

  /** Evaluation is exact when every intermediate value is an integer of the language, and an error otherwise. */
  lemma {:induction false} EvalExact(t: Tree)
    requires Literals(t)
    ensures Eval(t).Ok? <==> Representable(t)
    ensures Eval(t).Ok? ==> Denotes(t) == Some(Eval(t).value)
  {
    if t.Node? {
      EvalExact(t.left);
      EvalExact(t.right);
      if Eval(t.left).Ok? && Eval(t.right).Ok? {
        var a, b := Eval(t.left).value, Eval(t.right).value;
        OperationsExact(a, b);
        if EvalOperator(t.op, a, b).Ok? {
          OperatorInRange(t.op, a, b);
        }
      }
    }
  }

  /** An overflow error names an operation of the tree and its true operands. */
  predicate Reports(t: Tree, e: Error) {
    t.Node? &&
    (Reports(t.left, e) || Reports(t.right, e) ||
     (Denotes(t.left).Some? && Denotes(t.right).Some? &&
      var a, b := Denotes(t.left).value, Denotes(t.right).value;
      match e
      case Overflow(x, op, y) =>
        x == a && y == b &&
        ((t.op.Plus? && op == "+" && !InIntRange(a + b))
         || (t.op.Minus? && op == "-" && !InIntRange(a - b))
         || (t.op.Times? && op == "*" && !InIntRange(a * b)))
      case DivisionByZero => t.op.Divide? && b == 0
      case ModuloByZero => t.op.Modulo? && b == 0))
  }

  lemma {:induction false} ErrorsAreTrue(t: Tree)
    requires Literals(t) && Eval(t).Err?
    ensures Reports(t, Eval(t).error)
  {
    if Eval(t.left).Err? {
      ErrorsAreTrue(t.left);
    } else if Eval(t.right).Err? {
      ErrorsAreTrue(t.right);
    } else {
      EvalExact(t.left);
      EvalExact(t.right);
      OperationsExact(Eval(t.left).value, Eval(t.right).value);
    }
  }

  // --------------------------------------------------------------------------
  // The power operator
  // --------------------------------------------------------------------------

  /** The exponent as the 32-bit count that `Pow` takes. */
  function ClampExponent(exp: nat): nat {
    if exp <= U32_MAX then exp else U32_MAX
  }

  /** Integer power with an exponent that is not negative. */
  method EvalPow(base: int, exp: nat) returns (r: Result)
    requires InIntRange(base) && InIntRange(exp)
    ensures r == PowResult(base, exp, ClampExponent(exp))
  {
    var v, steps := Pow(base, ClampExponent(exp));
    r := IntResult(v, base, "^", exp);
  }

  /** The exact power with exponent `used`, or the overflow of `base ^ exp`. */
  function PowResult(base: int, exp: nat, used: nat): Result {
    if InIntRange(Power(base, used)) then Ok(Power(base, used)) else Err(Overflow(base, "^", exp))
  }

  /** Clamping the exponent is harmless except for -1 under a huge even exponent. */
  lemma ClampIffExact(base: int, exp: nat)
    ensures PowResult(base, exp, ClampExponent(exp)) == PowResult(base, exp, exp)
            <==> !(base == -1 && exp > U32_MAX && exp % 2 == 0)
  {
    if exp > U32_MAX {
      if Abs(base) >= 2 {
        OutOfRangeFrom53(base, exp);
        OutOfRangeFrom53(base, U32_MAX);
      } else {
        SmallBases(exp);
        SmallBases(U32_MAX);
      }
    }
  }

  lemma ClampCounterexample()
    ensures PowResult(-1, 4294967296, ClampExponent(4294967296)) == Ok(-1)
    ensures PowResult(-1, 4294967296, 4294967296) == Ok(1)
  {
    SmallBases(U32_MAX);
    SmallBases(4294967296);
  }
}
