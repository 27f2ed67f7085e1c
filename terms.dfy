/** The s-expression values a constraint rule is built from: the elements of
    a `CycList`. A formula is the sequence of elements of one list. */
module Terms {
  import opened Decimal

  /** `CycConstant`, `CycVariable`, `Long`, `String`, `CycList` and `CycNart`.
      A NART is a reified term; it is not a `CycList`, so the list walkers
      below treat it as a leaf. */
  datatype Term =
    | Const(name: string)
    | Var(name: string)
    | Int(value: int)
    | Str(text: string)
    | List(items: seq<Term>)
    | Nart(functor: Term, args: seq<Term>)

  /** `t.toString().equals(n)` for a plain identifier `n` (no `?` prefix, no
      parentheses, not a number): only a constant named `n` or the string
      `n` itself print as `n`. */
  predicate NamedAs(t: Term, n: string) {
    (t.Const? && t.name == n) || (t.Str? && t.text == n)
  }

  /** `cycListVisitor`: the non-list elements of a formula, left to right,
      descending into embedded lists. */
  function Leaves(s: seq<Term>): (r: seq<Term>)
    ensures forall i :: 0 <= i < |r| ==> !r[i].List?
  {
    if s == [] then []
    else (if s[0].List? then Leaves(s[0].items) else [s[0]]) + Leaves(s[1..])
  }

  /** The names of the variables occurring anywhere in a formula. */
  function VarNames(s: seq<Term>): set<string> {
    if s == [] then {} else TermVarNames(s[0]) + VarNames(s[1..])
  }

  function TermVarNames(t: Term): set<string> {
    match t
    case Var(n) => {n}
    case List(items) => VarNames(items)
    case _ => {}
  }

  /** `CycList.subst(x, Var(v))`: a copy of the formula with every occurrence
      of the variable `v`, at any list depth, replaced by `x`. */
  function Subst(s: seq<Term>, v: string, x: Term): (r: seq<Term>)
    ensures |r| == |s|
  {
    if s == [] then [] else [SubstTerm(s[0], v, x)] + Subst(s[1..], v, x)
  }

  function SubstTerm(t: Term, v: string, x: Term): Term {
    match t
    case Var(n) => if n == v then x else t
    case List(items) => List(Subst(items, v, x))
    case _ => t
  }

  lemma {:induction false} LeavesAppend(s: seq<Term>, t: seq<Term>)
    ensures Leaves(s + t) == Leaves(s) + Leaves(t)
    decreases |s|
  {
    if s != [] {
      assert (s + t)[1..] == s[1..] + t;
      LeavesAppend(s[1..], t);
    } else {
      assert s + t == t;
    }
  }

  /** The variables collected by the visitor are exactly the formula's
      variables. */
  lemma {:induction false} LeavesHoldVariables(s: seq<Term>)
    ensures forall n :: n in VarNames(s) <==> Var(n) in Leaves(s)
  {
    if s != [] {
      LeavesHoldVariables(s[1..]);
      if s[0].List? {
        LeavesHoldVariables(s[0].items);
      }
    }
  }

  lemma {:induction false} VarNamesAppend(s: seq<Term>, t: seq<Term>)
    ensures VarNames(s + t) == VarNames(s) + VarNames(t)
    decreases |s|
  {
    if s != [] {
      assert (s + t)[1..] == s[1..] + t;
      VarNamesAppend(s[1..], t);
    } else {
      assert s + t == t;
    }
  }

  /** Substitution removes `v` and brings in the variables of `x`, exactly
      when `v` occurred. */
  lemma {:induction false} SubstVarNames(s: seq<Term>, v: string, x: Term)
    ensures VarNames(Subst(s, v, x)) ==
            (VarNames(s) - {v}) + (if v in VarNames(s) then TermVarNames(x) else {})
    decreases s, 1
  {
    if s != [] {
      var a, b := TermVarNames(s[0]), VarNames(s[1..]);
      SubstTermVarNames(s[0], v, x);
      SubstVarNames(s[1..], v, x);
      assert VarNames(s) == a + b;
      assert VarNames(Subst(s, v, x)) ==
             TermVarNames(SubstTerm(s[0], v, x)) + VarNames(Subst(s[1..], v, x));
    }
  }

  lemma {:induction false} SubstTermVarNames(t: Term, v: string, x: Term)
    ensures TermVarNames(SubstTerm(t, v, x)) ==
            (TermVarNames(t) - {v}) + (if v in TermVarNames(t) then TermVarNames(x) else {})
    decreases t, 0
  {
    if t.List? {
      SubstVarNames(t.items, v, x);
    }
  }

  /** Substituting a variable that does not occur changes nothing. */
  lemma {:induction false} SubstAbsent(s: seq<Term>, v: string, x: Term)
    requires v !in VarNames(s)
    ensures Subst(s, v, x) == s
  {
    if s != [] {
      SubstAbsent(s[1..], v, x);
      if s[0].List? {
        SubstAbsent(s[0].items, v, x);
      }
    }
  }

  /** Renaming `v` to a variable `w` that does not occur, then renaming `w`
      back, restores the formula. */
  lemma {:induction false} RenameRoundTrip(s: seq<Term>, v: string, w: string)
    requires w !in VarNames(s)
    ensures Subst(Subst(s, v, Var(w)), w, Var(v)) == s
  {
    if s != [] {
      RenameRoundTrip(s[1..], v, w);
      if s[0].List? {
        RenameRoundTrip(s[0].items, v, w);
      }
    }
  }

  /** `toString()` of an element, as `CycList.toString` prints it. */
  function Display(t: Term): string {
    match t
    case Const(n) => n
    case Var(n) => "?" + n
    case Int(i) => IntToString(i)
    case Str(s) => "\"" + s + "\""
    case List(items) => "(" + DisplayAll(items) + ")"
    case Nart(f, args) => "(" + Display(f) + (if args == [] then "" else " " + DisplayAll(args)) + ")"
  }

  function DisplayAll(s: seq<Term>): string {
    if s == [] then "" else if |s| == 1 then Display(s[0]) else Display(s[0]) + " " + DisplayAll(s[1..])
  }

  /** `cyclify()`: like `Display`, with every constant prefixed by `#$`. */
  function Cyclify(t: Term): string {
    match t
    case Const(n) => "#$" + n
    case Var(n) => "?" + n
    case Int(i) => IntToString(i)
    case Str(s) => "\"" + s + "\""
    case List(items) => "(" + CyclifyAll(items) + ")"
    case Nart(f, args) => "(" + Cyclify(f) + (if args == [] then "" else " " + CyclifyAll(args)) + ")"
  }

  function CyclifyAll(s: seq<Term>): string {
    if s == [] then "" else if |s| == 1 then Cyclify(s[0]) else Cyclify(s[0]) + " " + CyclifyAll(s[1..])
  }
}
