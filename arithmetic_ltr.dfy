/**
 * ArithmeticLTR (src/Helpers/ArithmeticLTR.php): a chain of same-precedence
 * binary operators folded from left to right, each step asking the left
 * operand for the operation and, when it declines, the right operand with the
 * operands swapped.
 */
module ArithmeticLTR {
  import opened Wrappers

  /** The value methods an operator dispatches to. */
  datatype Capability = DoAddition | DoSubtraction | DoMultiplication | DoDivision

  /**
   * How values answer a capability: `dispatch(c, a, b)` is `$a->doX($b)`,
   * None when `a` does not know how to combine itself with `b`.
   */
  type Dispatch<!V> = (Capability, V, V) -> Option<V>

  /** BinaryOperationError: the operator and the operands as the caller gave them. */
  datatype BinaryOperationError<V> = BinaryOperationError(op: string, left: V, right: V)

  type Outcome<V> = Result<V, BinaryOperationError<V>>

  const Operators: set<string> := {"+", "-", "*", "/"}

  /** The `switch` of `evaluate`: the four arithmetic operators and their methods; no other operator has one. */
  function CapabilityFor(op: string): (c: Option<Capability>)
    ensures c.Some? <==> op in Operators
    ensures op == "+" ==> c == Some(DoAddition)
    ensures op == "-" ==> c == Some(DoSubtraction)
    ensures op == "*" ==> c == Some(DoMultiplication)
    ensures op == "/" ==> c == Some(DoDivision)
  {
    if op == "+" then Some(DoAddition)
    else if op == "-" then Some(DoSubtraction)
    else if op == "*" then Some(DoMultiplication)
    else if op == "/" then Some(DoDivision)
    else None
  }

  /**
   * The two-attempt protocol of `evaluate`, stated without the loop: the left
   * operand's answer wins; only when it declines is the right operand asked,
   * with the left one as argument; when both decline (or the operator has no
   * method at all) the error names the operator and the unswapped operands.
   */
  function Apply<V>(op: string, left: V, right: V, dispatch: Dispatch<V>): (r: Outcome<V>)
    ensures r.Failure? ==> r.error == BinaryOperationError(op, left, right)
    ensures op !in Operators ==> r.Failure?
    ensures op in Operators && dispatch(CapabilityFor(op).value, left, right).Some?
      ==> r == Success(dispatch(CapabilityFor(op).value, left, right).value)
    ensures op in Operators && dispatch(CapabilityFor(op).value, left, right).None?
      ==> r == (match dispatch(CapabilityFor(op).value, right, left)
                case Some(v) => Success(v)
                case None => Failure(BinaryOperationError(op, left, right)))
  {
    match CapabilityFor(op)
    case None => Failure(BinaryOperationError(op, left, right))
    case Some(c) =>
      match dispatch(c, left, right)
      case Some(v) => Success(v)
      case None =>
        match dispatch(c, right, left)
        case Some(v) => Success(v)
        case None => Failure(BinaryOperationError(op, left, right))
  }

  /** `evaluate`: at most two tries, swapping `$a` and `$b` after a declined one. */
  method Evaluate<V>(op: string, left: V, right: V, dispatch: Dispatch<V>) returns (r: Outcome<V>)
    ensures r == Apply(op, left, right, dispatch)
  {
    var a, b := left, right;
    var result: Option<V> := None;
    var i := 0;
    while i < 2
      invariant 0 <= i <= 2
      invariant result.None?
      invariant i == 0 ==> a == left && b == right
      invariant i == 1 ==> a == right && b == left
      invariant i == 1 ==> op !in Operators || dispatch(CapabilityFor(op).value, left, right).None?
      invariant i == 2 ==> Apply(op, left, right, dispatch).Failure?
    {
      if op == "+" {
        result := dispatch(DoAddition, a, b);
      } else if op == "-" {
        result := dispatch(DoSubtraction, a, b);
      } else if op == "*" {
        result := dispatch(DoMultiplication, a, b);
      } else if op == "/" {
        result := dispatch(DoDivision, a, b);
      }
      if result.Some? {
        break;
      }
      a, b := b, a;
      i := i + 1;
    }
    if result.None? {
      return Failure(BinaryOperationError(op, left, right));
    }
    return Success(result.value);
  }

  /**
   * The left-to-right fold over (operator, operand) pairs: a pair without an
   * operator sets the accumulator to its operand, every other pair replaces
   * the accumulator with the operator applied to it and the operand; the first
   * failing step ends the fold with its error.
   */
  function Fold<V>(acc: V, pairs: seq<(Option<string>, V)>, dispatch: Dispatch<V>): Outcome<V>
    decreases |pairs|
  {
    if pairs == [] then Success(acc)
    else
      match pairs[0].0
      case None => Fold(pairs[0].1, pairs[1..], dispatch)
      case Some(op) =>
        match Apply(op, acc, pairs[0].1, dispatch)
        case Failure(e) => Failure(e)
        case Success(v) => Fold(v, pairs[1..], dispatch)
  }

  /** `handle`: the accumulator starts at the interned null and is folded over the pairs in order. */
  method Handle<V>(pairs: seq<(Option<string>, V)>, nullValue: V, dispatch: Dispatch<V>) returns (r: Outcome<V>)
    ensures r == Fold(nullValue, pairs, dispatch)
  {
    var result := nullValue;
    for i := 0 to |pairs|
      invariant Fold(nullValue, pairs, dispatch) == Fold(result, pairs[i..], dispatch)
    {
      assert pairs[i..][1..] == pairs[i + 1..];
      var (operator, operand) := pairs[i];
      if operator.None? {
        result := operand;
        continue;
      }
      var step := Evaluate(operator.value, result, operand, dispatch);
      if step.Failure? {
        return Failure(step.error);
      }
      result := step.value;
    }
    return Success(result);
  }

  /** Folding a concatenation folds the first part, then continues from its result. */
  lemma {:induction false} FoldAppend<V>(acc: V, p: seq<(Option<string>, V)>, q: seq<(Option<string>, V)>, dispatch: Dispatch<V>)
    ensures Fold(acc, p + q, dispatch) ==
      match Fold(acc, p, dispatch)
      case Failure(e) => Failure(e)
      case Success(v) => Fold(v, q, dispatch)
    decreases |p|
  {
    if p == [] {
      assert p + q == q;
    } else {
      assert (p + q)[1..] == p[1..] + q;
      match p[0].0
      case None => FoldAppend(p[0].1, p[1..], q, dispatch);
      case Some(op) =>
        match Apply(op, acc, p[0].1, dispatch)
        case Failure(e) =>
        case Success(v) => FoldAppend(v, p[1..], q, dispatch);
    }
  }

  /** The result is the accumulator after the last pair: the last step applies to the fold of all earlier pairs. */
  lemma {:induction false} FoldLastStep<V>(acc: V, p: seq<(Option<string>, V)>, op: string, operand: V, dispatch: Dispatch<V>)
    ensures Fold(acc, p + [(Some(op), operand)], dispatch) ==
      match Fold(acc, p, dispatch)
      case Failure(e) => Failure(e)
      case Success(v) => Apply(op, v, operand, dispatch)
  {
    FoldAppend(acc, p, [(Some(op), operand)], dispatch);
  }

  /** The null seed never shows through: a chain opened by a pair without an operator does not depend on it. */
  lemma SeedIsOverwritten<V>(seed1: V, seed2: V, pairs: seq<(Option<string>, V)>, dispatch: Dispatch<V>)
    requires pairs != [] && pairs[0].0.None?
    ensures Fold(seed1, pairs, dispatch) == Fold(seed2, pairs, dispatch)
  {
  }

  /** An operator outside + - * / fails on whatever operands and capabilities. */
  lemma {:induction false} UnknownOperatorFails<V>(acc: V, p: seq<(Option<string>, V)>, op: string, operand: V, dispatch: Dispatch<V>)
    requires op !in Operators
    requires Fold(acc, p, dispatch).Success?
    ensures Fold(acc, p + [(Some(op), operand)], dispatch)
      == Failure(BinaryOperationError(op, Fold(acc, p, dispatch).value, operand))
  {
    FoldLastStep(acc, p, op, operand, dispatch);
  }

  /**
   * Sample operand kinds for worked examples: numbers and strings with their
   * usual arithmetic, an `Inert` value with no arithmetic at all, and a `Sink`
   * that knows how to be added to anything (a right-hand-only addition).
   */
  datatype Sample = Num(n: int) | Str(s: string) | Inert | Sink

  function SampleDispatch(c: Capability, a: Sample, b: Sample): Option<Sample>
  {
    match (c, a, b)
    case (DoAddition, Num(x), Num(y)) => Some(Num(x + y))
    case (DoSubtraction, Num(x), Num(y)) => Some(Num(x - y))
    case (DoMultiplication, Num(x), Num(y)) => Some(Num(x * y))
    case (DoAddition, Str(x), Str(y)) => Some(Str(x + y))
    case (DoAddition, Sink, _) => Some(Sink)
    case _ => None
  }

  /** 2 + 3 - 4 folds to 1, and "a" + "b" to "ab", whatever the seed. */
  lemma FoldExamples(seed: Sample)
    ensures Fold(seed, [(None, Num(2)), (Some("+"), Num(3)), (Some("-"), Num(4))], SampleDispatch) == Success(Num(1))
    ensures Fold(seed, [(None, Str("a")), (Some("+"), Str("b"))], SampleDispatch) == Success(Str("ab"))
  {
    assert "a" + "b" == "ab";
  }

  /**
   * A value without addition plus a value that accepts being added to succeeds
   * through the swapped attempt; two values without addition fail with the
   * error naming "+" and both operands.
   */
  lemma SwapExamples()
    ensures Apply("+", Inert, Sink, SampleDispatch) == Success(Sink)
    ensures Apply("+", Inert, Inert, SampleDispatch) == Failure(BinaryOperationError("+", Inert, Inert))
    ensures Apply("%", Num(4), Num(2), SampleDispatch) == Failure(BinaryOperationError("%", Num(4), Num(2)))
  {
  }
}
