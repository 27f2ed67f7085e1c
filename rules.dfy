/** Constraint rules: a formula (a predicate followed by its arguments), the
    set of variables it mentions and the backchaining depth at which it was
    introduced, with the local classifiers and the ground evaluator. */
module Rules {
  import opened Wrappers
  import opened Terms

  /** The exceptions the rule layer raises. */
  datatype RuleError =
    | InvalidRule        // simplifyRuleExpression on a list of fewer than two elements
    | EmptyList          // first() or rest() of an empty list
    | MissingElement     // get(i), second() past the end of a list
    | NotAConstant       // ClassCastException: predicate or functor is not a CycConstant
    | NotAList           // ClassCastException: an operand is not a CycList
    | NotARuleVariable   // substituteVariable or instantiate on a foreign variable
    | CannotBeEvaluated  // evaluateConstraintRule / numericallyEvaluateExpression refused

  /** `(CycConstant) rule.first()`, as a name. */
  function PredicateName(f: seq<Term>): (r: Result<string, RuleError>)
    ensures r.Ok? <==> |f| > 0 && f[0].Const?
    ensures r.Ok? ==> r.value == f[0].name
  {
    if f == [] then Err(EmptyList)
    else if !f[0].Const? then Err(NotAConstant)
    else Ok(f[0].name)
  }

  /** `ArrayList.remove(Object)`: drop the first occurrence, if any. */
  function RemoveFirst(s: seq<string>, x: string): (r: seq<string>)
    ensures x in s ==> |r| == |s| - 1
    ensures x !in s ==> r == s
    ensures forall y :: y != x ==> (y in r <==> y in s)
    ensures NoDuplicates(s) ==> NoDuplicates(r) && x !in r
  {
    if s == [] then []
    else if s[0] == x then s[1..]
    else
      var t := RemoveFirst(s[1..], x);
      assert NoDuplicates(s) ==> s[0] !in s[1..];
      [s[0]] + t
  }

  lemma {:induction false} DistinctCount(s: seq<string>)
    requires NoDuplicates(s)
    ensures |set x | x in s| == |s|
  {
    if s != [] {
      DistinctCount(s[1..]);
      assert (set x | x in s) == {s[0]} + (set x | x in s[1..]);
    }
  }

  // ---------------------------------------------------------------------
  // The Rule object
  // ---------------------------------------------------------------------

  class Rule {
    /** The formula, as the elements of its CycList. */
    var formula: seq<Term>
    /** The names of the rule's variables (an ArrayList filled from a
        HashSet, so its order carries no meaning). */
    var variables: seq<string>
    /** 0 for rules of the original problem. */
    var backchainDepth: int

    /** The variable list holds each variable of the formula exactly once.
        Construction establishes it; see SubstituteVariable for how it can
        be lost. */
    ghost predicate Valid()
      reads this
    {
      NoDuplicates(variables) && forall n :: n in variables <==> n in VarNames(formula)
    }

    /** `getArity()`: the number of variables, not the predicate's arity. */
    function Arity(): nat
      reads this
    {
      |variables|
    }

    /** `Rule(CycList)`. */
    constructor (rule: seq<Term>)
      ensures formula == rule && backchainDepth == 0
      ensures Valid() && Arity() == |VarNames(rule)|
    {
      formula := rule;
      backchainDepth := 0;
      variables := [];
      new;
      GatherVariables();
      DistinctCount(variables);
      assert (set x | x in variables) == VarNames(rule);
    }

    /** `Rule(CycList, int)`: the only way to build a rule at a depth. */
    constructor AtDepth(rule: seq<Term>, depth: int)
      ensures formula == rule && backchainDepth == depth
      ensures Valid() && Arity() == |VarNames(rule)|
    {
      formula := rule;
      backchainDepth := depth;
      variables := [];
      new;
      GatherVariables();
      DistinctCount(variables);
      assert (set x | x in variables) == VarNames(rule);
    }

    /** `gatherVariables`: walk the leaves of the formula and keep each
        variable once. */
    method GatherVariables()
      modifies this`variables
      ensures Valid()
    {
      var leaves := Leaves(formula);
      var unique: seq<string> := [];
      var i := 0;
      while i < |leaves|
        invariant 0 <= i <= |leaves|
        invariant NoDuplicates(unique)
        invariant forall n :: n in unique <==> Var(n) in leaves[..i]
      {
        if leaves[i].Var? && leaves[i].name !in unique {
          unique := unique + [leaves[i].name];
        }
        assert leaves[..i + 1] == leaves[..i] + [leaves[i]];
        i := i + 1;
      }
      assert leaves[..i] == leaves;
      LeavesHoldVariables(formula);
      variables := unique;
    }

    /** `equals`: rules are equal when their formulas are; the depth is not
        compared. `null` stands for any object that is not a Rule. */
    predicate Equals(that: Rule?)
      reads this, that
    {
      that != null && formula == that.formula
    }

    /** `clone`: a new rule over a copy of the formula, at depth 0. */
    method Clone() returns (c: Rule)
      ensures fresh(c) && Equals(c) && c.Valid() && c.backchainDepth == 0
    {
      c := new Rule(formula);
    }

    /** `substituteVariable`, as written: the new object is appended to the
        variable list whenever it is a variable, even one already listed. */
    method SubstituteVariable(v: string, x: Term) returns (r: Outcome<RuleError>)
      modifies this`variables, this`formula
      ensures old(v !in variables) ==> r == Fail(NotARuleVariable) && unchanged(this)
      ensures old(v in variables) ==> && r == Pass
                                      && variables == RemoveFirst(old(variables), v) + (if x.Var? then [x.name] else [])
                                      && formula == Subst(old(formula), v, x)
    {
      if v !in variables {
        return Fail(NotARuleVariable);
      }
      variables := RemoveFirst(variables, v);
      if x.Var? {
        variables := variables + [x.name];
      }
      formula := Subst(formula, v, x);
      r := Pass;
    }

    /** `substituteVariable` with the duplicate check it evidently lacks:
        the new variable is added only when it is not listed yet. It keeps
        the rule valid whenever the substituted object brings no variable
        other than itself. */
    method SubstituteVariableOnce(v: string, x: Term) returns (r: Outcome<RuleError>)
      requires Valid()
      modifies this`variables, this`formula
      ensures old(v !in variables) ==> r == Fail(NotARuleVariable) && unchanged(this)
      ensures old(v in variables) ==> && r == Pass
                                      && formula == Subst(old(formula), v, x)
                                      && (x.Var? || TermVarNames(x) == {} ==> Valid())
    {
      if v !in variables {
        return Fail(NotARuleVariable);
      }
      SubstVarNames(formula, v, x);
      variables := RemoveFirst(variables, v);
      if x.Var? && x.name !in variables {
        variables := variables + [x.name];
      }
      formula := Subst(formula, v, x);
      r := Pass;
    }

    /** `isAllDifferent`: at least two variables and the predicate
        `different`; a predicate that is not a constant throws. */
    function IsAllDifferent(): (r: Result<bool, RuleError>)
      reads this
      ensures r == Ok(true) <==> Arity() >= 2 && |formula| > 0 && formula[0] == Const("different")
      ensures r.Err? <==> Arity() >= 2 && !(|formula| > 0 && formula[0].Const?)
    {
      if Arity() < 2 then Ok(false)
      else
        var p :- PredicateName(formula);
        Ok(p == "different")
    }

    /** `isIntensionalVariableDomainPopulatingRule`: exactly one variable
        and the predicate `isa`. */
    function IsIntensional(): (r: Result<bool, RuleError>)
      reads this
      ensures r == Ok(true) <==> Arity() == 1 && |formula| > 0 && formula[0] == Const("isa")
      ensures r.Err? <==> Arity() == 1 && !(|formula| > 0 && formula[0].Const?)
    {
      if Arity() != 1 then Ok(false)
      else
        var p :- PredicateName(formula);
        Ok(p == "isa")
    }

    /** `isExtensionalVariableDomainPopulatingRule`: exactly one variable
        and the predicate `elementOf`. */
    function IsExtensional(): (r: Result<bool, RuleError>)
      reads this
      ensures r == Ok(true) <==> Arity() == 1 && |formula| > 0 && formula[0] == Const("elementOf")
      ensures r.Err? <==> Arity() == 1 && !(|formula| > 0 && formula[0].Const?)
    {
      if Arity() != 1 then Ok(false)
      else
        var p :- PredicateName(formula);
        Ok(p == "elementOf")
    }

    /** `isVariableDomainPopulatingRule`: the short-circuit disjunction of
        the two kinds. */
    function IsDomainPopulating(): (r: Result<bool, RuleError>)
      reads this
      ensures r == Ok(true) <==> IsIntensional() == Ok(true) || IsExtensional() == Ok(true)
      ensures r.Err? <==> IsIntensional().Err?
    {
      var intensional :- IsIntensional();
      if intensional then Ok(true) else IsExtensional()
    }

    /** `instantiate`: a new rule, at depth 0, with every occurrence of the
        variable replaced by the value; this rule is left as it was. */
    method Instantiate(v: string, value: Term) returns (r: Result<Rule, RuleError>)
      ensures v !in variables ==> r == Err(NotARuleVariable)
      ensures v in variables ==> && r.Ok? && fresh(r.value)
                                 && r.value.formula == Subst(formula, v, value)
                                 && r.value.backchainDepth == 0 && r.value.Valid()
                                 && (Valid() && TermVarNames(value) == {} ==> v !in r.value.variables)
    {
      if v !in variables {
        return Err(NotARuleVariable);
      }
      var rule := new Rule(Subst(formula, v, value));
      SubstVarNames(formula, v, value);
      r := Ok(rule);
    }
  }

  /** `getArity()` of a well-formed rule is the number of distinct
      variables occurring in its formula. */
  lemma ArityCountsVariables(r: Rule)
    requires r.Valid()
    ensures r.Arity() == |VarNames(r.formula)|
  {
    DistinctCount(r.variables);
    assert (set x | x in r.variables) == VarNames(r.formula);
  }

  /** `equals` compares formulas only, so it is an equivalence on rules
      and never holds against null. */
  lemma RuleEqualsIsEquivalence(a: Rule, b: Rule, c: Rule)
    ensures a.Equals(a) && !a.Equals(null)
    ensures a.Equals(b) ==> b.Equals(a)
    ensures a.Equals(b) && b.Equals(c) ==> a.Equals(c)
  {
  }

  /** As written, substituting one listed variable by another listed
      variable leaves the second one twice in the list, so the arity
      over-counts: `(different ?x ?y)` with `?y` for `?x` keeps arity 2. */
  lemma SubstituteListsTwice(vars: seq<string>, v: string, w: string)
    requires NoDuplicates(vars) && v in vars && w in vars && v != w
    ensures !NoDuplicates(RemoveFirst(vars, v) + [w])
  {
    var r := RemoveFirst(vars, v);
    var k :| 0 <= k < |r| && r[k] == w;
    assert (r + [w])[k] == (r + [w])[|r|];
  }

  /** An all-different rule is never a domain-populating one: the first
      needs two variables, the second exactly one. */
  lemma AllDifferentIsNotDomainPopulating(rule: Rule)
    requires rule.IsAllDifferent() == Ok(true)
    ensures rule.IsDomainPopulating() == Ok(false)
  {
  }

  /** `simplifyRuleExpression`: an `and` list yields one rule per operand,
      in order; any other list of at least two elements yields one rule
      for the whole list. */
  method SimplifyRuleExpression(f: seq<Term>) returns (r: Result<seq<Rule>, RuleError>)
    ensures |f| < 2 ==> r == Err(InvalidRule)
    ensures |f| >= 2 && NamedAs(f[0], "and") ==>
              (r.Ok? <==> forall i :: 1 <= i < |f| ==> f[i].List?) &&
              (r.Err? ==> r.error == NotAList) &&
              (r.Ok? ==> |r.value| == |f| - 1 &&
                         forall i :: 0 <= i < |r.value| ==> r.value[i].formula == f[i + 1].items)
    ensures |f| >= 2 && !NamedAs(f[0], "and") ==> r.Ok? && |r.value| == 1 && r.value[0].formula == f
    ensures r.Ok? ==> forall i :: 0 <= i < |r.value| ==>
              fresh(r.value[i]) && r.value[i].Valid() && r.value[i].backchainDepth == 0
  {
    if |f| < 2 {
      return Err(InvalidRule);
    }
    var rules: seq<Rule> := [];
    if NamedAs(f[0], "and") {
      var i := 1;
      while i < |f|
        invariant 1 <= i <= |f|
        invariant |rules| == i - 1
        invariant forall k :: 1 <= k < i ==> f[k].List?
        invariant forall k :: 0 <= k < |rules| ==>
                    fresh(rules[k]) && rules[k].formula == f[k + 1].items &&
                    rules[k].Valid() && rules[k].backchainDepth == 0
      {
        if !f[i].List? {
          return Err(NotAList);
        }
        var rule := new Rule(f[i].items);
        rules := rules + [rule];
        i := i + 1;
      }
    } else {
      var rule := new Rule(f);
      rules := [rule];
    }
    r := Ok(rules);
  }

  // ---------------------------------------------------------------------
  // Local evaluation of ground numeric formulas
  // ---------------------------------------------------------------------

  /** `numericallyEvaluateExpression`: an integer is itself; a list or NART
      headed by `PlusFn` is one more than its first argument (further
      arguments are ignored); anything else throws. */
  function NumericallyEvaluate(t: Term): (r: Result<int, RuleError>)
    ensures t.Int? ==> r == Ok(t.value)
  {
    match t
    case Int(n) => Ok(n)
    case Nart(functor, args) =>
      if args == [] then Err(MissingElement)
      else if functor == Const("PlusFn") then
        var v :- NumericallyEvaluate(args[0]);
        Ok(v + 1)
      else Err(CannotBeEvaluated)
    case List(items) =>
      if items == [] then Err(EmptyList)
      else if !items[0].Const? then Err(NotAConstant)
      else if |items| < 2 then Err(MissingElement)
      else if items[0].name == "PlusFn" then
        var v :- NumericallyEvaluate(items[1]);
        Ok(v + 1)
      else Err(CannotBeEvaluated)
    case _ => Err(CannotBeEvaluated)
  }

  /** `evaluateConstraintRule`: `numericallyEqual` holds when every argument
      has the first argument's value, `or` when some operand holds, `and`
      when all do; operands are tried left to right and the first deciding
      one ends the loop. Any other predicate throws. */
  function EvaluateConstraintRule(f: seq<Term>): (r: Result<bool, RuleError>)
    ensures r.Ok? ==> |f| > 0 && f[0].Const? &&
                      (f[0].name == "numericallyEqual" || f[0].name == "or" || f[0].name == "and")
    ensures |f| > 0 && f[0].Const? && f[0].name != "numericallyEqual" && f[0].name != "or" && f[0].name != "and" ==>
              r == Err(CannotBeEvaluated)
    decreases f, 1
  {
    var p :- PredicateName(f);
    if p == "numericallyEqual" then
      if |f| < 2 then Err(MissingElement)
      else
        var v :- NumericallyEvaluate(f[1]);
        AllEvaluateTo(f[2..], v)
    else if p == "or" then SomeOperandHolds(f[1..])
    else if p == "and" then EveryOperandHolds(f[1..])
    else Err(CannotBeEvaluated)
  }

  function AllEvaluateTo(args: seq<Term>, v: int): Result<bool, RuleError> {
    if args == [] then Ok(true)
    else
      var w :- NumericallyEvaluate(args[0]);
      if w != v then Ok(false) else AllEvaluateTo(args[1..], v)
  }

  function SomeOperandHolds(ops: seq<Term>): Result<bool, RuleError>
    decreases ops, 0
  {
    if ops == [] then Ok(false)
    else if !ops[0].List? then Err(NotAList)
    else
      var b :- EvaluateConstraintRule(ops[0].items);
      if b then Ok(true) else SomeOperandHolds(ops[1..])
  }

  function EveryOperandHolds(ops: seq<Term>): Result<bool, RuleError>
    decreases ops, 0
  {
    if ops == [] then Ok(true)
    else if !ops[0].List? then Err(NotAList)
    else
      var b :- EvaluateConstraintRule(ops[0].items);
      if !b then Ok(false) else EveryOperandHolds(ops[1..])
  }

  // ---------------------------------------------------------------------
  // Which rules can be evaluated locally
  // ---------------------------------------------------------------------

  /** Argument kinds `hasEvaluatableNumericalArgs` lets through. */
  predicate NumericShape(t: Term) {
    t.Var? || t.Int? || t.Nart? || t.List?
  }

  /** Arguments on which `hasEvaluatableNumericalArgs` throws: a `PlusFn`
      NART without arguments, an empty list, a `PlusFn` list without a
      second element. */
  predicate ArgFails(t: Term) {
    || (t.Nart? && t.functor == Const("PlusFn") && t.args == [])
    || (t.List? && (t.items == [] || (NamedAs(t.items[0], "PlusFn") && |t.items| < 2)))
  }

  /** `hasEvaluatableNumericalArgs`, as written: inside the `PlusFn`
      branches a failed test falls through to the next argument, so every
      list and NART is accepted whatever it holds. */
  function NumericalArgsEvaluatable(args: seq<Term>): (r: Result<bool, RuleError>)
    ensures r.Err? ==> exists i :: 0 <= i < |args| && ArgFails(args[i])
    ensures r == Ok(false) ==> exists i :: 0 <= i < |args| && !NumericShape(args[i])
  {
    if args == [] then Ok(true)
    else match args[0]
      case Var(_) => NumericalArgsEvaluatable(args[1..])
      case Int(_) => NumericalArgsEvaluatable(args[1..])
      case Nart(functor, nargs) =>
        if functor == Const("PlusFn") && nargs == [] then Err(MissingElement)
        else NumericalArgsEvaluatable(args[1..])
      case List(items) =>
        if items == [] then Err(EmptyList)
        else if NamedAs(items[0], "PlusFn") && |items| < 2 then Err(MissingElement)
        else NumericalArgsEvaluatable(args[1..])
      case _ => Ok(false)
  }

  /** The arguments are accepted exactly when each is a variable, a number,
      a list or a NART, and none of them makes the check throw. */
  lemma {:induction false} NumericalArgsAccepted(args: seq<Term>)
    ensures NumericalArgsEvaluatable(args) == Ok(true) <==>
            forall i :: 0 <= i < |args| ==> NumericShape(args[i]) && !ArgFails(args[i])
  {
    if args != [] {
      NumericalArgsAccepted(args[1..]);
      assert forall i :: 1 <= i < |args| ==> args[i] == args[1..][i - 1];
    }
  }

  /** `isEvaluatable`, as written: a `numericallyEqual`, `or` or `and` rule
      with at least two arguments, whose arguments (respectively operand
      rules) pass. */
  function IsEvaluatable(f: seq<Term>): (r: Result<bool, RuleError>)
    ensures r == Ok(true) ==> |f| >= 3 && f[0].Const? &&
                              (f[0].name == "numericallyEqual" || f[0].name == "or" || f[0].name == "and")
    decreases f, 1
  {
    if f == [] then Err(EmptyList)
    else if |f| - 1 < 2 then Ok(false)
    else
      var p :- PredicateName(f);
      if p == "numericallyEqual" then NumericalArgsEvaluatable(f[1..])
      else if p == "or" || p == "and" then OperandsEvaluatable(f[1..])
      else Ok(false)
  }

  function OperandsEvaluatable(ops: seq<Term>): Result<bool, RuleError>
    decreases ops, 0
  {
    if ops == [] then Ok(true)
    else if !ops[0].List? then Err(NotAList)
    else
      var b :- IsEvaluatable(ops[0].items);
      if !b then Ok(false) else OperandsEvaluatable(ops[1..])
  }

  /** The operand loop passes exactly when every operand is a list whose
      rule is evaluatable. */
  lemma {:induction false} OperandsAccepted(ops: seq<Term>)
    ensures OperandsEvaluatable(ops) == Ok(true) <==>
            forall i :: 0 <= i < |ops| ==> ops[i].List? && IsEvaluatable(ops[i].items) == Ok(true)
    decreases ops
  {
    if ops != [] {
      OperandsAccepted(ops[1..]);
      assert forall i :: 1 <= i < |ops| ==> ops[i] == ops[1..][i - 1];
    }
  }

  /** What `isEvaluatable` decides for each head, once there are at least
      two arguments: `numericallyEqual` defers to the argument check, `and`
      and `or` hold iff every operand rule is evaluatable, any other
      constant is refused. */
  lemma IsEvaluatableCases(f: seq<Term>)
    requires |f| >= 3 && f[0].Const?
    ensures f[0].name == "numericallyEqual" ==> IsEvaluatable(f) == NumericalArgsEvaluatable(f[1..])
    ensures f[0].name == "and" || f[0].name == "or" ==>
              (IsEvaluatable(f) == Ok(true) <==>
               forall i :: 1 <= i < |f| ==> f[i].List? && IsEvaluatable(f[i].items) == Ok(true))
    ensures f[0].name != "numericallyEqual" && f[0].name != "and" && f[0].name != "or" ==>
              IsEvaluatable(f) == Ok(false)
  {
    OperandsAccepted(f[1..]);
    assert forall i :: 1 <= i < |f| ==> f[i] == f[1..][i - 1];
  }

  /** No variables anywhere, NART arguments included. */
  predicate Ground(s: seq<Term>) {
    forall i :: 0 <= i < |s| ==> GroundTerm(s[i])
  }

  predicate GroundTerm(t: Term) {
    match t
    case Var(_) => false
    case List(items) => Ground(items)
    case Nart(f, args) => GroundTerm(f) && Ground(args)
    case _ => true
  }

  /** A ground rule the as-written check calls evaluatable, on which the
      evaluator throws: `(numericallyEqual (PlusFn "a") 1)`. */
  lemma EvaluatableRuleThatThrows()
    ensures var f := [Const("numericallyEqual"), List([Const("PlusFn"), Str("a")]), Int(1)];
            && Ground(f)
            && IsEvaluatable(f) == Ok(true)
            && EvaluateConstraintRule(f) == Err(CannotBeEvaluated)
  {
    var f := [Const("numericallyEqual"), List([Const("PlusFn"), Str("a")]), Int(1)];
    assert f[1..] == [f[1], f[2]];
    assert f[1..][1..] == [f[2]];
    assert f[2..] == [f[2]];
  }

  /** The argument of a `PlusFn` expression that the documented check
      accepts: a variable or a number. */
  predicate SimpleNumber(t: Term) {
    t.Var? || t.Int?
  }

  /** `hasEvaluatableNumericalArgs` as documented: a `PlusFn` expression is
      accepted only when its functor is the constant `PlusFn` and its
      argument is a variable or a number. */
  function StrictNumericalArgsEvaluatable(args: seq<Term>): Result<bool, RuleError> {
    if args == [] then Ok(true)
    else match args[0]
      case Var(_) => StrictNumericalArgsEvaluatable(args[1..])
      case Int(_) => StrictNumericalArgsEvaluatable(args[1..])
      case Nart(functor, nargs) =>
        if functor != Const("PlusFn") then Ok(false)
        else if nargs == [] then Err(MissingElement)
        else if SimpleNumber(nargs[0]) then StrictNumericalArgsEvaluatable(args[1..])
        else Ok(false)
      case List(items) =>
        if items == [] then Err(EmptyList)
        else if items[0] != Const("PlusFn") then Ok(false)
        else if |items| < 2 then Err(MissingElement)
        else if SimpleNumber(items[1]) then StrictNumericalArgsEvaluatable(args[1..])
        else Ok(false)
      case _ => Ok(false)
  }

  /** `isEvaluatable` over the documented argument check. */
  function StrictIsEvaluatable(f: seq<Term>): (r: Result<bool, RuleError>)
    ensures r == Ok(true) ==> |f| >= 3 && f[0].Const? &&
                              (f[0].name == "numericallyEqual" || f[0].name == "or" || f[0].name == "and")
    decreases f, 1
  {
    if f == [] then Err(EmptyList)
    else if |f| - 1 < 2 then Ok(false)
    else
      var p :- PredicateName(f);
      if p == "numericallyEqual" then StrictNumericalArgsEvaluatable(f[1..])
      else if p == "or" || p == "and" then StrictOperandsEvaluatable(f[1..])
      else Ok(false)
  }

  function StrictOperandsEvaluatable(ops: seq<Term>): Result<bool, RuleError>
    decreases ops, 0
  {
    if ops == [] then Ok(true)
    else if !ops[0].List? then Err(NotAList)
    else
      var b :- StrictIsEvaluatable(ops[0].items);
      if !b then Ok(false) else StrictOperandsEvaluatable(ops[1..])
  }

  /** The documented check is sound: once instantiated, a rule it accepts
      is evaluated without an exception. */
  lemma {:induction false} StrictEvaluatableEvaluates(f: seq<Term>)
    requires StrictIsEvaluatable(f) == Ok(true) && Ground(f)
    ensures EvaluateConstraintRule(f).Ok?
    decreases f, 1
  {
    var p := f[0].name;
    if p == "numericallyEqual" {
      StrictArgsEvaluate(f[1..]);
      AllEvaluateToSucceeds(f[2..], NumericallyEvaluate(f[1]).value);
    } else if p == "or" {
      StrictOperandsEvaluate(f[1..], true);
    } else {
      StrictOperandsEvaluate(f[1..], false);
    }
  }

  lemma {:induction false} StrictArgsEvaluate(args: seq<Term>)
    requires StrictNumericalArgsEvaluatable(args) == Ok(true) && Ground(args)
    ensures forall i :: 0 <= i < |args| ==> NumericallyEvaluate(args[i]).Ok?
  {
    if args != [] {
      assert GroundTerm(args[0]);
      StrictArgsEvaluate(args[1..]);
      assert forall i :: 1 <= i < |args| ==> args[i] == args[1..][i - 1];
      match args[0]
      case Nart(_, nargs) => assert Ground(nargs); assert GroundTerm(nargs[0]);
      case List(items) => assert Ground(items); assert GroundTerm(items[1]);
      case _ =>
    }
  }

  lemma {:induction false} AllEvaluateToSucceeds(args: seq<Term>, v: int)
    requires forall i :: 0 <= i < |args| ==> NumericallyEvaluate(args[i]).Ok?
    ensures AllEvaluateTo(args, v).Ok?
  {
    if args != [] {
      AllEvaluateToSucceeds(args[1..], v);
    }
  }

  lemma {:induction false} StrictOperandsEvaluate(ops: seq<Term>, disjunction: bool)
    requires StrictOperandsEvaluatable(ops) == Ok(true) && Ground(ops)
    ensures disjunction ==> SomeOperandHolds(ops).Ok?
    ensures !disjunction ==> EveryOperandHolds(ops).Ok?
    decreases ops, 0
  {
    if ops != [] {
      assert GroundTerm(ops[0]);
      StrictEvaluatableEvaluates(ops[0].items);
      assert Ground(ops[1..]);
      StrictOperandsEvaluate(ops[1..], disjunction);
    }
  }

  /** Numerals the evaluator understands, as an independent reference: a
      literal, or the successor of a numeral written as a `PlusFn` list or
      NART, possibly with ignored extra arguments. */
  datatype Numeral =
    | Literal(n: int)
    | PlusList(of: Numeral, extra: seq<Term>)
    | PlusNart(of: Numeral, extra: seq<Term>)

  function NumeralValue(n: Numeral): int {
    match n
    case Literal(k) => k
    case PlusList(m, _) => NumeralValue(m) + 1
    case PlusNart(m, _) => NumeralValue(m) + 1
  }

  function NumeralTerm(n: Numeral): Term {
    match n
    case Literal(k) => Int(k)
    case PlusList(m, extra) => List([Const("PlusFn"), NumeralTerm(m)] + extra)
    case PlusNart(m, extra) => Nart(Const("PlusFn"), [NumeralTerm(m)] + extra)
  }

  /** Every numeral evaluates to its value. */
  lemma {:induction false} EvaluateNumeral(n: Numeral)
    ensures NumericallyEvaluate(NumeralTerm(n)) == Ok(NumeralValue(n))
  {
    match n
    case Literal(_) =>
    case PlusList(m, _) => EvaluateNumeral(m);
    case PlusNart(m, _) => EvaluateNumeral(m);
  }

  /** Only numerals evaluate: whatever evaluates is the spelling of a
      numeral with that value. */
  lemma {:induction false} EvaluatesOnlyNumerals(t: Term) returns (n: Numeral)
    requires NumericallyEvaluate(t).Ok?
    ensures NumeralTerm(n) == t && NumeralValue(n) == NumericallyEvaluate(t).value
  {
    match t
    case Int(k) => n := Literal(k);
    case Nart(functor, args) =>
      var m := EvaluatesOnlyNumerals(args[0]);
      n := PlusNart(m, args[1..]);
      assert [NumeralTerm(m)] + args[1..] == args;
    case List(items) =>
      var m := EvaluatesOnlyNumerals(items[1]);
      n := PlusList(m, items[2..]);
      assert [Const("PlusFn"), NumeralTerm(m)] + items[2..] == items;
  }

  /** Ground constraints over numerals, as a reference semantics. */
  datatype Constraint =
    | Equal(first: Numeral, others: seq<Numeral>)
    | AnyOf(options: seq<Constraint>)
    | AllOf(parts: seq<Constraint>)

  predicate Satisfied(c: Constraint) {
    match c
    case Equal(a, bs) => forall i :: 0 <= i < |bs| ==> NumeralValue(bs[i]) == NumeralValue(a)
    case AnyOf(cs) => exists i :: 0 <= i < |cs| && Satisfied(cs[i])
    case AllOf(cs) => forall i :: 0 <= i < |cs| ==> Satisfied(cs[i])
  }

  function ConstraintFormula(c: Constraint): seq<Term> {
    match c
    case Equal(a, bs) => [Const("numericallyEqual"), NumeralTerm(a)] + NumeralTerms(bs)
    case AnyOf(cs) => [Const("or")] + ConstraintLists(cs)
    case AllOf(cs) => [Const("and")] + ConstraintLists(cs)
  }

  function NumeralTerms(ns: seq<Numeral>): (r: seq<Term>)
    ensures |r| == |ns|
    ensures forall i :: 0 <= i < |ns| ==> r[i] == NumeralTerm(ns[i])
  {
    if ns == [] then [] else [NumeralTerm(ns[0])] + NumeralTerms(ns[1..])
  }

  function ConstraintLists(cs: seq<Constraint>): (r: seq<Term>)
    ensures |r| == |cs|
  {
    if cs == [] then [] else [List(ConstraintFormula(cs[0]))] + ConstraintLists(cs[1..])
  }

  /** The local evaluator decides every ground constraint exactly as the
      reference semantics does. */
  lemma {:induction false} EvaluateConstraint(c: Constraint)
    ensures EvaluateConstraintRule(ConstraintFormula(c)) == Ok(Satisfied(c))
    decreases c, 1
  {
    var f := ConstraintFormula(c);
    match c
    case Equal(a, bs) =>
      EvaluateNumeral(a);
      assert f[2..] == NumeralTerms(bs);
      EvaluateEquals(bs, NumeralValue(a));
    case AnyOf(cs) =>
      assert f[1..] == ConstraintLists(cs);
      EvaluateAnyOf(cs);
    case AllOf(cs) =>
      assert f[1..] == ConstraintLists(cs);
      EvaluateAllOf(cs);
  }

  lemma {:induction false} EvaluateEquals(bs: seq<Numeral>, v: int)
    ensures AllEvaluateTo(NumeralTerms(bs), v) == Ok(forall i :: 0 <= i < |bs| ==> NumeralValue(bs[i]) == v)
  {
    if bs != [] {
      EvaluateNumeral(bs[0]);
      assert NumeralTerms(bs)[1..] == NumeralTerms(bs[1..]);
      EvaluateEquals(bs[1..], v);
      assert forall i :: 1 <= i < |bs| ==> bs[i] == bs[1..][i - 1];
    }
  }

  lemma {:induction false} EvaluateAnyOf(cs: seq<Constraint>)
    ensures SomeOperandHolds(ConstraintLists(cs)) == Ok(exists i :: 0 <= i < |cs| && Satisfied(cs[i]))
    decreases cs, 0
  {
    if cs != [] {
      var ops := ConstraintLists(cs);
      EvaluateConstraint(cs[0]);
      assert ops[1..] == ConstraintLists(cs[1..]);
      EvaluateAnyOf(cs[1..]);
      assert forall i :: 1 <= i < |cs| ==> cs[i] == cs[1..][i - 1];
    }
  }

  lemma {:induction false} EvaluateAllOf(cs: seq<Constraint>)
    ensures EveryOperandHolds(ConstraintLists(cs)) == Ok(forall i :: 0 <= i < |cs| ==> Satisfied(cs[i]))
    decreases cs, 0
  {
    if cs != [] {
      var ops := ConstraintLists(cs);
      EvaluateConstraint(cs[0]);
      assert ops[1..] == ConstraintLists(cs[1..]);
      EvaluateAllOf(cs[1..]);
      assert forall i :: 1 <= i < |cs| ==> cs[i] == cs[1..][i - 1];
    }
  }

  /** `or` stops at the first true operand: what follows it is never
      looked at, even if it could not be evaluated. */
  lemma {:induction false} OrStopsAtFirstTrue(ops: seq<Term>, k: nat)
    requires k < |ops|
    requires forall i :: 0 <= i < k ==> ops[i].List? && EvaluateConstraintRule(ops[i].items) == Ok(false)
    requires ops[k].List? && EvaluateConstraintRule(ops[k].items) == Ok(true)
    ensures SomeOperandHolds(ops) == Ok(true)
  {
    if k > 0 {
      OrStopsAtFirstTrue(ops[1..], k - 1);
    }
  }

  /** `and` stops at the first false operand in the same way. */
  lemma {:induction false} AndStopsAtFirstFalse(ops: seq<Term>, k: nat)
    requires k < |ops|
    requires forall i :: 0 <= i < k ==> ops[i].List? && EvaluateConstraintRule(ops[i].items) == Ok(true)
    requires ops[k].List? && EvaluateConstraintRule(ops[k].items) == Ok(false)
    ensures EveryOperandHolds(ops) == Ok(false)
  {
    if k > 0 {
      AndStopsAtFirstFalse(ops[1..], k - 1);
    }
  }
}
