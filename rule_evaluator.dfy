/** `RuleEvaluator.ask`: the local decision procedure for instantiated
    constraint rules built from `and`, `or`, `not`, `numericallyEqual` and
    `different`. It looks only at the rule's formula. */
module RuleEvaluator {
  import opened Wrappers
  import opened Terms

  /** The exceptions `ask` raises. */
  datatype EvalError =
    | EmptyList                // first() of an empty formula or argument
    | MissingElement           // second() / third() past the end
    | NotAConstant             // the predicate is not a CycConstant
    | InvalidOperand           // an `and` / `or` operand that is not a list
    | NotAList                 // the `not` operand is not a list
    | InvalidNot               // the `not` operand has fewer than two elements
    | InvalidNumericArgument   // a `numericallyEqual` argument that is neither list nor number
    | CannotLocallyEvaluate    // any other predicate

  /** The value `ask` gives a `numericallyEqual` argument: a number is
      itself, `(PlusFn n)` is `n + 1`, and every other list counts as 0. */
  function NumericArgument(t: Term): (r: Result<int, EvalError>)
    ensures t.Int? ==> r == Ok(t.value)
    ensures r.Err? <==> || !(t.Int? || t.List?)
                        || (t.List? && (t.items == [] || (t.items[0] == Const("PlusFn") && |t.items| < 2)))
    ensures t.List? && |t.items| >= 2 && t.items[0] == Const("PlusFn") && t.items[1].Int? ==>
              r == Ok(t.items[1].value + 1)
    ensures t.List? && t.items != [] && t.items[0] != Const("PlusFn") ==> r == Ok(0)
    ensures t.List? && |t.items| >= 2 && !t.items[1].Int? ==> r == Ok(0)
  {
    match t
    case Int(n) => Ok(n)
    case List(items) =>
      if items == [] then Err(EmptyList)
      else if items[0] != Const("PlusFn") then Ok(0)
      else if |items| < 2 then Err(MissingElement)
      else if items[1].Int? then Ok(items[1].value + 1)
      else Ok(0)
    case _ => Err(InvalidNumericArgument)
  }

  /** `ask`: whether the instantiated rule is proven true. */
  function Ask(f: seq<Term>): Result<bool, EvalError>
    decreases f, 1
  {
    if f == [] then Err(EmptyList)
    else if !f[0].Const? then Err(NotAConstant)
    else
      var p := f[0].name;
      if p == "and" then AskAll(f[1..])
      else if p == "or" then AskAny(f[1..])
      else if p == "not" then
        if |f| < 2 then Err(MissingElement)
        else if !f[1].List? then Err(NotAList)
        else if |f[1].items| < 2 then Err(InvalidNot)
        else
          var b :- Ask(f[1].items);
          Ok(!b)
      else if p == "numericallyEqual" then
        if |f| < 2 then Err(MissingElement)
        else
          var a :- NumericArgument(f[1]);
          if |f| < 3 then Err(MissingElement)
          else
            var b :- NumericArgument(f[2]);
            Ok(a == b)
      else if p == "different" then Ok(NoDuplicates(f[1..]))
      else Err(CannotLocallyEvaluate)
  }

  /** The `and` loop: false at the first false operand. */
  function AskAll(ops: seq<Term>): Result<bool, EvalError>
    decreases ops, 0
  {
    if ops == [] then Ok(true)
    else if !ops[0].List? then Err(InvalidOperand)
    else
      var b :- Ask(ops[0].items);
      if !b then Ok(false) else AskAll(ops[1..])
  }

  /** The `or` loop: true at the first true operand. */
  function AskAny(ops: seq<Term>): Result<bool, EvalError>
    decreases ops, 0
  {
    if ops == [] then Ok(false)
    else if !ops[0].List? then Err(InvalidOperand)
    else
      var b :- Ask(ops[0].items);
      if b then Ok(true) else AskAny(ops[1..])
  }

  // ---------------------------------------------------------------------
  // Reference semantics
  // ---------------------------------------------------------------------

  /** A `numericallyEqual` argument `ask` reads as a number. */
  datatype Operand = Number(n: int) | Successor(n: int)

  function OperandValue(a: Operand): int {
    match a
    case Number(n) => n
    case Successor(n) => n + 1
  }

  function OperandTerm(a: Operand): Term {
    match a
    case Number(n) => Int(n)
    case Successor(n) => List([Const("PlusFn"), Int(n)])
  }

  /** Queries over the five locally evaluable predicates. */
  datatype Query =
    | All(parts: seq<Query>)
    | Any(options: seq<Query>)
    | Negation(body: Query)
    | SameNumber(left: Operand, right: Operand)
    | Distinct(args: seq<Term>)

  predicate Holds(q: Query) {
    match q
    case All(qs) => forall i :: 0 <= i < |qs| ==> Holds(qs[i])
    case Any(qs) => exists i :: 0 <= i < |qs| && Holds(qs[i])
    case Negation(b) => !Holds(b)
    case SameNumber(a, b) => OperandValue(a) == OperandValue(b)
    case Distinct(args) => NoDuplicates(args)
  }

  /** `not` refuses an operand of fewer than two elements: an empty
      conjunction, disjunction or `different`. */
  predicate WellFormed(q: Query) {
    match q
    case All(qs) => forall i :: 0 <= i < |qs| ==> WellFormed(qs[i])
    case Any(qs) => forall i :: 0 <= i < |qs| ==> WellFormed(qs[i])
    case Negation(b) => |QueryFormula(b)| >= 2 && WellFormed(b)
    case _ => true
  }

  function QueryFormula(q: Query): (f: seq<Term>)
    ensures |f| >= 1
  {
    match q
    case All(qs) => [Const("and")] + QueryLists(qs)
    case Any(qs) => [Const("or")] + QueryLists(qs)
    case Negation(b) => [Const("not"), List(QueryFormula(b))]
    case SameNumber(a, b) => [Const("numericallyEqual"), OperandTerm(a), OperandTerm(b)]
    case Distinct(args) => [Const("different")] + args
  }

  function QueryLists(qs: seq<Query>): (r: seq<Term>)
    ensures |r| == |qs|
  {
    if qs == [] then [] else [List(QueryFormula(qs[0]))] + QueryLists(qs[1..])
  }

  /** `ask` decides every well-formed query exactly as the reference
      semantics does. */
  lemma {:induction false} AskDecides(q: Query)
    requires WellFormed(q)
    ensures Ask(QueryFormula(q)) == Ok(Holds(q))
    decreases q, 1
  {
    var f := QueryFormula(q);
    match q
    case All(qs) =>
      assert f[1..] == QueryLists(qs);
      AskAllDecides(qs);
    case Any(qs) =>
      assert f[1..] == QueryLists(qs);
      AskAnyDecides(qs);
    case Negation(b) =>
      AskDecides(b);
    case SameNumber(a, b) =>
    case Distinct(args) =>
      assert f[1..] == args;
  }

  lemma {:induction false} AskAllDecides(qs: seq<Query>)
    requires forall i :: 0 <= i < |qs| ==> WellFormed(qs[i])
    ensures AskAll(QueryLists(qs)) == Ok(forall i :: 0 <= i < |qs| ==> Holds(qs[i]))
    decreases qs, 0
  {
    if qs != [] {
      AskDecides(qs[0]);
      assert QueryLists(qs)[1..] == QueryLists(qs[1..]);
      AskAllDecides(qs[1..]);
      assert forall i :: 1 <= i < |qs| ==> qs[i] == qs[1..][i - 1];
    }
  }

  lemma {:induction false} AskAnyDecides(qs: seq<Query>)
    requires forall i :: 0 <= i < |qs| ==> WellFormed(qs[i])
    ensures AskAny(QueryLists(qs)) == Ok(exists i :: 0 <= i < |qs| && Holds(qs[i]))
    decreases qs, 0
  {
    if qs != [] {
      AskDecides(qs[0]);
      assert QueryLists(qs)[1..] == QueryLists(qs[1..]);
      AskAnyDecides(qs[1..]);
      assert forall i :: 1 <= i < |qs| ==> qs[i] == qs[1..][i - 1];
    }
  }

  /** Two `not`s cancel, exceptions included. */
  lemma DoubleNegation(g: seq<Term>)
    requires |g| >= 2
    ensures Ask([Const("not"), List([Const("not"), List(g)])]) == Ask(g)
  {
  }

  /** `numericallyEqual` compares its first two arguments only. */
  lemma NumericallyEqualReadsTwoArguments(a: Term, b: Term, extra: seq<Term>)
    ensures Ask([Const("numericallyEqual"), a, b] + extra) == Ask([Const("numericallyEqual"), a, b])
  {
    var f := [Const("numericallyEqual"), a, b] + extra;
    assert f[0] == Const("numericallyEqual") && f[1] == a && f[2] == b;
  }

  /** There is no fallback: any other predicate throws. */
  lemma UnknownPredicateThrows(p: string, args: seq<Term>)
    requires p !in {"and", "or", "not", "numericallyEqual", "different"}
    ensures Ask([Const(p)] + args) == Err(CannotLocallyEvaluate)
  {
    assert ([Const(p)] + args)[0] == Const(p);
  }

  /** An `and` or `or` operand that is not a list throws once it is
      reached. */
  lemma NonListOperandThrows(op: Term, more: seq<Term>)
    requires !op.List?
    ensures Ask([Const("and"), op] + more) == Err(InvalidOperand)
    ensures Ask([Const("or"), op] + more) == Err(InvalidOperand)
  {
    assert ([Const("and"), op] + more)[1..] == [op] + more;
    assert ([Const("or"), op] + more)[1..] == [op] + more;
  }

  /** `not` refuses an operand of fewer than two elements. */
  lemma NotNeedsTwoElements(g: seq<Term>)
    requires |g| < 2
    ensures Ask([Const("not"), List(g)]) == Err(InvalidNot)
  {
  }

  /** A function expression other than `(PlusFn n)` is read as 0, so
      `(numericallyEqual (g …) n)` is proven exactly when `n` is 0, and
      `(numericallyEqual (TimesFn 2 3) 0)` is proven true. */
  lemma UnknownFunctionIsZero(g: Term, args: seq<Term>, n: int)
    requires g != Const("PlusFn")
    ensures NumericArgument(List([g] + args)) == Ok(0)
    ensures Ask([Const("numericallyEqual"), List([g] + args), Int(n)]) == Ok(n == 0)
  {
    var f := [Const("numericallyEqual"), List([g] + args), Int(n)];
    assert f[1].items[0] == g;
  }
}
