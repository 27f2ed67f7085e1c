/** What the ELF behaviour-engine operators share: the values arguments
    evaluate to, the `Hashtable` a dictionary is, and the way an operator
    prints one of its (unevaluated) arguments. */
module ElfExpressions {
  import opened Wrappers
  import opened Terms
  import opened AsciiConnection

  /** The exceptions the two operators can raise. */
  datatype OperatorError =
    | WrongArgumentCount   // BehaviorEngineException: not exactly three arguments
    | IndexOutOfBounds     // List.get past the end
    | NullPointer          // toString of null, or a null put into a Hashtable
    | ClassCast            // the dictionary argument is not a Hashtable

  /** An unevaluated argument as an operator's `toString` sees it: a
      `String`, a `CycList`, any other object (by its `toString`), or null. */
  datatype Argument =
    | Text(text: string)
    | CycListArgument(items: seq<Term>)
    | Object(repr: string)
    | NullArgument

  /** What an argument evaluates to: null, a dictionary, or any other
      object, described by a term. */
  datatype Value =
    | Null
    | Table(dictionary: Dictionary)
    | Datum(content: Term)

  /** A `java.util.Hashtable`, which refuses null keys and values. */
  class Dictionary {
    var entries: map<Value, Value>

    constructor ()
      ensures entries == map[]
    {
      entries := map[];
    }

    /** `put`: one entry written, every other key as it was. */
    method Put(key: Value, value: Value) returns (r: Outcome<OperatorError>)
      modifies this
      ensures key.Null? || value.Null? ==> r == Fail(NullPointer) && entries == old(entries)
      ensures !key.Null? && !value.Null? ==> r == Pass && entries == old(entries)[key := value]
      ensures r.Pass? ==> key in entries && entries[key] == value
    {
      if key.Null? || value.Null? {
        return Fail(NullPointer);
      }
      entries := entries[key := value];
      r := Pass;
    }
  }

  /** How an operator prints an argument in the first positions: a string
      in double quotes, a `CycList` cyclified, anything else by its
      `toString`; null throws. */
  function Render(a: Argument): Result<string, OperatorError> {
    match a
    case Text(t) => Ok("\"" + t + "\"")
    case CycListArgument(items) => Ok(Cyclify(List(items)))
    case Object(repr) => Ok(repr)
    case NullArgument => Err(NullPointer)
  }

  /** An argument's own `toString`: a string is itself, a `CycList` prints
      without `#$` marks. */
  function PlainString(a: Argument): Result<string, OperatorError> {
    match a
    case Text(t) => Ok(t)
    case CycListArgument(items) => Ok(Display(List(items)))
    case Object(repr) => Ok(repr)
    case NullArgument => Err(NullPointer)
  }

  /** Arguments whose rendering the expression reader can delimit. */
  predicate Renderable(a: Argument) {
    match a
    case Text(t) => forall k :: 0 <= k < |t| ==> t[k] != '"'
    case CycListArgument(items) => AllPrintable(items)
    case Object(repr) => Plain(repr)
    case NullArgument => false
  }

  /** Arguments whose plain `toString` the expression reader can delimit. */
  predicate PlainRenderable(a: Argument) {
    match a
    case Text(t) => Plain(t)
    case CycListArgument(items) => AllPrintable(items)
    case Object(repr) => Plain(repr)
    case NullArgument => false
  }

  /** A rendered argument leaves the expression reader where it was. */
  lemma RenderThrough(a: Argument, depth: nat)
    requires depth > 0 && Renderable(a)
    ensures Render(a).Ok? && Through(Render(a).value, depth, false) == Some((depth, false))
  {
    match a
    case Text(t) =>
      assert Render(a).value == Printed(Str(t), true);
      StringThrough(t, depth, true);
    case CycListArgument(items) =>
      assert Render(a).value == Printed(List(items), true);
      PrintedThrough(List(items), depth, true);
    case Object(repr) => ThroughPlain(repr, depth, false);
  }

  lemma PlainStringThrough(a: Argument, depth: nat)
    requires depth > 0 && PlainRenderable(a)
    ensures PlainString(a).Ok? && Through(PlainString(a).value, depth, false) == Some((depth, false))
  {
    match a
    case Text(t) => ThroughPlain(t, depth, false);
    case CycListArgument(items) =>
      assert PlainString(a).value == Printed(List(items), false);
      PrintedThrough(List(items), depth, false);
    case Object(repr) => ThroughPlain(repr, depth, false);
  }

  /** The form an operator prints: its name and the printed arguments,
      each after a space, in parentheses. */
  function Form(name: string, parts: seq<string>): string {
    "(" + name + Spaced(parts) + ")"
  }

  function Spaced(parts: seq<string>): string {
    if parts == [] then [] else " " + parts[0] + Spaced(parts[1..])
  }

  lemma {:induction false} SpacedThrough(parts: seq<string>)
    requires forall i :: 0 <= i < |parts| ==> Through(parts[i], 1, false) == Some((1, false))
    ensures Through(Spaced(parts), 1, false) == Some((1, false))
  {
    if parts != [] {
      SpacedThrough(parts[1..]);
      ThroughPlain(" ", 1, false);
      ThroughJoin(" ", parts[0], 1);
      ThroughJoin(" " + parts[0], Spaced(parts[1..]), 1);
    }
  }

  /** A form whose name is plain and whose parts keep the reader's state
      is one symbolic expression the ASCII reader delimits exactly. */
  lemma FormIsExpression(name: string, parts: seq<string>, rest: seq<char>)
    requires Plain(name)
    requires forall i :: 0 <= i < |parts| ==> Through(parts[i], 1, false) == Some((1, false))
    ensures ExpressionEnd(Form(name, parts) + rest, 0) == Some(|Form(name, parts)|)
  {
    ThroughPlain(name, 1, false);
    SpacedThrough(parts);
    ThroughJoin(name, Spaced(parts), 1);
    ReadsParenthesized(name + Spaced(parts), rest);
    assert Form(name, parts) == "(" + (name + Spaced(parts)) + ")";
  }

  /** Two stretches that each keep the reader's state keep it together. */
  lemma ThroughJoin(a: seq<char>, b: seq<char>, depth: nat)
    requires depth > 0
    requires Through(a, depth, false) == Some((depth, false))
    requires Through(b, depth, false) == Some((depth, false))
    ensures Through(a + b, depth, false) == Some((depth, false))
  {
    ThroughAppend(a, b, depth, false);
  }
}

/** `DictionaryEnter`: `(dictionary-enter key value dictionary)`. */
module DictionaryEnter {
  import opened Wrappers
  import opened ElfExpressions
  import opened AsciiConnection

  /** The dictionary `evaluate` writes to: the third argument's value, when
      there are three arguments and it is a dictionary. */
  function Target(args: seq<Argument>, eval: Argument -> Value): set<Dictionary> {
    if |args| == 3 && eval(args[2]).Table? then {eval(args[2]).dictionary} else {}
  }

  /** `evaluate`: exactly three arguments; the third must evaluate to a
      dictionary, which then maps the evaluated key to the evaluated value;
      the result is the key. `eval` stands for `evaluateArgument` in the
      current state. */
  method Evaluate(args: seq<Argument>, eval: Argument -> Value) returns (r: Result<Value, OperatorError>)
    requires |args| == 3 ==> allocated(eval(args[2]))
    modifies Target(args, eval)
    ensures |args| != 3 ==> r == Err(WrongArgumentCount)
    ensures |args| == 3 && eval(args[2]).Null? ==> r == Err(NullPointer)
    ensures |args| == 3 && eval(args[2]).Datum? ==> r == Err(ClassCast)
    ensures |args| == 3 && eval(args[2]).Table? ==>
              var key, value, d := eval(args[0]), eval(args[1]), eval(args[2]).dictionary;
              && (key.Null? || value.Null? ==> r == Err(NullPointer) && d.entries == old(d.entries))
              && (!key.Null? && !value.Null? ==>
                    && r == Ok(key)
                    && d.entries == old(d.entries)[key := value]
                    && key in d.entries && d.entries[key] == value)
  {
    if |args| != 3 {
      return Err(WrongArgumentCount);
    }
    var key := eval(args[0]);
    var value := eval(args[1]);
    var dictionary := eval(args[2]);
    if dictionary.Null? {
      return Err(NullPointer);
    }
    if !dictionary.Table? {
      return Err(ClassCast);
    }
    var put := dictionary.dictionary.Put(key, value);
    if put.Fail? {
      return Err(put.error);
    }
    r := Ok(key);
  }

  /** `toString(List)`: `(dictionary-enter k v d)` with the key and value
      rendered and the dictionary argument by its plain `toString`. */
  function ToString(args: seq<Argument>): (r: Result<string, OperatorError>)
    ensures r.Ok? ==> |args| >= 3 && "(dictionary-enter " <= r.value && r.value[|r.value| - 1] == ')'
  {
    if |args| < 1 then Err(IndexOutOfBounds)
    else
      var key :- Render(args[0]);
      if |args| < 2 then Err(IndexOutOfBounds)
      else
        var value :- Render(args[1]);
        if |args| < 3 then Err(IndexOutOfBounds)
        else
          var dictionary :- PlainString(args[2]);
          Ok(Form("dictionary-enter", [key, value, dictionary]))
  }

  /** Printing fails exactly when an argument is missing or null; arguments
      after the third are never looked at. */
  lemma ToStringFails(args: seq<Argument>)
    ensures ToString(args).Err? <==>
            |args| < 3 || args[0].NullArgument? || args[1].NullArgument? || args[2].NullArgument?
    ensures |args| > 3 ==> ToString(args) == ToString(args[..3])
  {
    if |args| > 3 {
      assert args[..3][0] == args[0] && args[..3][1] == args[1] && args[..3][2] == args[2];
    }
  }

  /** The printed operator is one symbolic expression: the ASCII reader
      delimits exactly it, whatever follows. */
  lemma ToStringIsExpression(args: seq<Argument>, rest: seq<char>)
    requires |args| >= 3 && Renderable(args[0]) && Renderable(args[1]) && PlainRenderable(args[2])
    ensures ToString(args).Ok?
    ensures ExpressionEnd(ToString(args).value + rest, 0) == Some(|ToString(args).value|)
  {
    RenderThrough(args[0], 1);
    RenderThrough(args[1], 1);
    PlainStringThrough(args[2], 1);
    var parts := [Render(args[0]).value, Render(args[1]).value, PlainString(args[2]).value];
    assert ToString(args) == Ok(Form("dictionary-enter", parts));
    FormIsExpression("dictionary-enter", parts, rest);
  }
}

/** `NotNull`: `(not-null x)`. */
module NotNull {
  import opened Wrappers
  import opened ElfExpressions
  import opened AsciiConnection

  /** `evaluate`: whether the first argument evaluates to something other
      than null. */
  function Evaluate(args: seq<Argument>, eval: Argument -> Value): (r: Result<bool, OperatorError>)
    ensures r.Err? <==> args == []
    ensures r.Ok? ==> (r.value <==> eval(args[0]) != Null)
  {
    if |args| == 0 then Err(IndexOutOfBounds) else Ok(!eval(args[0]).Null?)
  }

  /** Only the first argument is evaluated: the rest are ignored, and the
      answer is true exactly when that value is not null. */
  lemma EvaluateReadsFirst(a: Argument, more: seq<Argument>, eval: Argument -> Value)
    ensures Evaluate([a] + more, eval) == Evaluate([a], eval)
    ensures Evaluate([a] + more, eval) == Ok(true) <==> eval(a) != Null
  {
  }

  /** `toString(List)`: `(not-null x)` with the argument rendered. */
  function ToString(args: seq<Argument>): (r: Result<string, OperatorError>)
    ensures r.Ok? ==> |args| >= 1 && "(not-null " <= r.value && r.value[|r.value| - 1] == ')'
  {
    if |args| == 0 then Err(IndexOutOfBounds)
    else
      var x :- Render(args[0]);
      Ok(Form("not-null", [x]))
  }

  /** Printing fails exactly when the first argument is missing or null. */
  lemma ToStringFails(args: seq<Argument>)
    ensures ToString(args).Err? <==> |args| == 0 || args[0].NullArgument?
  {
  }

  /** The printed predicate is one symbolic expression the ASCII reader
      delimits exactly. */
  lemma ToStringIsExpression(args: seq<Argument>, rest: seq<char>)
    requires |args| >= 1 && Renderable(args[0])
    ensures ToString(args).Ok?
    ensures ExpressionEnd(ToString(args).value + rest, 0) == Some(|ToString(args).value|)
  {
    RenderThrough(args[0], 1);
    var parts := [Render(args[0]).value];
    assert ToString(args) == Ok(Form("not-null", parts));
    FormIsExpression("not-null", parts, rest);
  }
}
