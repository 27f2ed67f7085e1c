/** `CycVariable`: variables identified by name, printed with a `?` mark,
    interned in a cache, and renamed apart with a numeric suffix. */
module Variables {
  import opened Wrappers
  import opened Decimal

  /** The exceptions of this layer. */
  datatype VariableError =
    | NullName           // a NullPointerException on a variable without a name
    | NotAVariable       // ClassCastException from compareTo
    | InvalidForCaching  // addCache of a variable without a name

  /** Drop one leading `?`, if there is one. */
  function StripMark(s: string): (r: string)
    ensures |s| > 0 && s[0] == '?' ==> r == s[1..]
    ensures !(|s| > 0 && s[0] == '?') ==> r == s
    ensures |r| >= |s| - 1
  {
    if |s| > 0 && s[0] == '?' then s[1..] else s
  }

  /** The name as Java string concatenation prints it: `null` when absent. */
  function NameText(name: Option<string>): string {
    match name
    case None => "null"
    case Some(n) => n
  }

  /** `String.compareTo`: the difference of the first differing characters,
      or else the difference of the lengths. */
  function CompareStrings(a: string, b: string): int {
    if a == [] || b == [] then |a| - |b|
    else if a[0] != b[0] then a[0] as int - b[0] as int
    else CompareStrings(a[1..], b[1..])
  }

  lemma {:induction false} CompareZeroIffEqual(a: string, b: string)
    ensures CompareStrings(a, b) == 0 <==> a == b
  {
    if a != [] && b != [] && a[0] == b[0] {
      CompareZeroIffEqual(a[1..], b[1..]);
      if a[1..] == b[1..] {
        assert a == [a[0]] + a[1..] && b == [b[0]] + b[1..];
      }
    }
  }

  lemma {:induction false} CompareAntisymmetric(a: string, b: string)
    ensures CompareStrings(a, b) == -CompareStrings(b, a)
  {
    if a != [] && b != [] && a[0] == b[0] {
      CompareAntisymmetric(a[1..], b[1..]);
    }
  }

  lemma {:induction false} CompareTransitive(a: string, b: string, c: string)
    requires CompareStrings(a, b) < 0 && CompareStrings(b, c) < 0
    ensures CompareStrings(a, c) < 0
  {
    if a != [] && b != [] && c != [] && a[0] == b[0] && b[0] == c[0] {
      CompareTransitive(a[1..], b[1..], c[1..]);
    }
  }

  class CycVariable {
    /** The name without the `?` mark; `None` for a variable made by the
        empty constructor. */
    const name: Option<string>

    /** `CycVariable()`: a variable without a name. */
    constructor Empty()
      ensures name == None
    {
      name := None;
    }

    /** `CycVariable(String)`: one leading `?` is dropped. */
    constructor (s: string)
      ensures name == Some(StripMark(s))
    {
      name := Some(StripMark(s));
    }

    /** `cyclify` (and `toString`, which returns it): the name behind a `?`
        mark. */
    function Cyclify(): (r: string)
      ensures |r| >= 1 && r[0] == '?' && r[1..] == NameText(name)
    {
      "?" + NameText(name)
    }

    /** `equals`: the other object is a variable with the same name; `null`
        stands for an object that is not a variable. */
    function Equals(that: CycVariable?): (r: Result<bool, VariableError>)
      ensures that == null ==> r == Ok(false)
      ensures that != null && that.name == None ==> r == Err(NullName)
      ensures that != null && that.name != None ==> r == Ok(name == that.name)
    {
      if that == null then Ok(false)
      else if that.name == None then Err(NullName)
      else Ok(name == that.name)
    }

    /** `compareTo`: the order of the names. */
    function CompareTo(that: CycVariable?): (r: Result<int, VariableError>)
      ensures that == null ==> r == Err(NotAVariable)
      ensures r.Ok? <==> that != null && name.Some? && that.name.Some?
      ensures r.Ok? ==> (r.value == 0 <==> Equals(that) == Ok(true))
      ensures r.Ok? ==> r.value == CompareStrings(name.value, that.name.value)
    {
      if that == null then Err(NotAVariable)
      else if name == None || that.name == None then Err(NullName)
      else
        CompareZeroIffEqual(name.value, that.name.value);
        Ok(CompareStrings(name.value, that.name.value))
    }
  }

  /** Comparing in the other direction flips the sign. */
  lemma CompareToAntisymmetric(a: CycVariable, b: CycVariable)
    requires a.CompareTo(b).Ok?
    ensures b.CompareTo(a) == Ok(-a.CompareTo(b).value)
  {
    CompareAntisymmetric(a.name.value, b.name.value);
  }

  /** The order of variables is transitive. */
  lemma CompareToTransitive(a: CycVariable, b: CycVariable, c: CycVariable)
    requires a.CompareTo(b).Ok? && b.CompareTo(c).Ok?
    requires a.CompareTo(b).value < 0 && b.CompareTo(c).value < 0
    ensures a.CompareTo(c).Ok? && a.CompareTo(c).value < 0
  {
    CompareTransitive(a.name.value, b.name.value, c.name.value);
  }

  /** The name `makeUniqueCycVariable` builds from a model name and a
      suffix. */
  function UniqueName(model: Option<string>, suffix: nat): string {
    NameText(model) + "_" + NatToString(suffix)
  }

  /** Different suffixes always give different names, whatever the model
      names: the digits after the last `_` are the suffix. */
  lemma UniqueNamesDiffer(m1: Option<string>, m2: Option<string>, a: nat, b: nat)
    requires a != b
    ensures UniqueName(m1, a) != UniqueName(m2, b)
  {
    NatToStringRoundTrip(a);
    NatToStringRoundTrip(b);
    DigitSuffixesDiffer(NameText(m1), NameText(m2), NatToString(a), NatToString(b));
  }

  lemma DigitSuffixesDiffer(p1: string, p2: string, d1: string, d2: string)
    requires AllDigits(d1) && AllDigits(d2) && d1 != d2
    ensures p1 + "_" + d1 != p2 + "_" + d2
  {
    var s1, s2 := p1 + "_" + d1, p2 + "_" + d2;
    if |s1| == |s2| {
      if |d1| == |d2| {
        assert s1[|s1| - |d1|..] == d1;
        assert s2[|s2| - |d2|..] == d2;
      } else if |d1| < |d2| {
        var k := |s1| - |d1| - 1;
        assert s1[k] == '_';
        assert s2[k] == d2[|d2| - |d1| - 1];
      } else {
        var k := |s2| - |d2| - 1;
        assert s2[k] == '_';
        assert s1[k] == d1[|d1| - |d2| - 1];
      }
    }
  }

  /** A name `makeUniqueCycVariable` can hand out for a model name and a
      suffix: the built key, or that key with one `?` mark dropped. */
  predicate UniqueCandidate(name: Option<string>, model: Option<string>, suffix: nat) {
    name == Some(UniqueName(model, suffix)) || name == Some(StripMark(UniqueName(model, suffix)))
  }

  /** Dropping the mark does not touch what follows the name. */
  lemma StripMarkKeepsSuffix(p: string, d: string)
    ensures StripMark(p + "_" + d) == StripMark(p) + "_" + d
  {
    if |p| > 0 && p[0] == '?' {
      assert (p + "_" + d)[1..] == p[1..] + "_" + d;
    }
  }

  /** Names handed out for different suffixes differ, whichever of the two
      forms each takes and whatever the model names. */
  lemma UniqueCandidatesDiffer(n1: Option<string>, n2: Option<string>,
                               m1: Option<string>, m2: Option<string>, a: nat, b: nat)
    requires a != b && UniqueCandidate(n1, m1, a) && UniqueCandidate(n2, m2, b)
    ensures n1 != n2
  {
    var p1, p2 := NameText(m1), NameText(m2);
    var d1, d2 := NatToString(a), NatToString(b);
    NatToStringRoundTrip(a);
    NatToStringRoundTrip(b);
    StripMarkKeepsSuffix(p1, d1);
    StripMarkKeepsSuffix(p2, d2);
    var q1 := if n1 == Some(p1 + "_" + d1) then p1 else StripMark(p1);
    var q2 := if n2 == Some(p2 + "_" + d2) then p2 else StripMark(p2);
    assert n1 == Some(q1 + "_" + d1) && n2 == Some(q2 + "_" + d2);
    DigitSuffixesDiffer(q1, q2, d1, d2);
  }

  /** The class-wide variable cache and suffix counter. */
  class VariableCache {
    var entries: map<string, CycVariable>
    var suffix: nat

    /** Every cached variable is named by its key, or by its key with one
        `?` mark dropped: `addCache` stores a variable under its own name,
        and both factory methods store `new CycVariable(key)` under `key`. */
    ghost predicate Valid()
      reads this
    {
      forall k :: k in entries ==> entries[k].name == Some(k) || entries[k].name == Some(StripMark(k))
    }

    /** A fresh cache; the suffix counter starts at 1. */
    constructor ()
      ensures entries == map[] && suffix == 1 && Valid()
    {
      entries := map[];
      suffix := 1;
    }

    /** `getCache`: the variable cached under the name, `None` for null. */
    function GetCache(name: string): (r: Option<CycVariable>)
      reads this
      ensures r.Some? <==> name in entries
      ensures r.Some? ==> r.value == entries[name]
    {
      if name in entries then Some(entries[name]) else None
    }

    /** The cache lookup shared by both factory methods: the cached variable,
        or a new one stored under the key. */
    method Intern(key: string) returns (v: CycVariable)
      modifies this`entries
      ensures key in old(entries) ==> v == old(entries[key]) && entries == old(entries)
      ensures key !in old(entries) ==> fresh(v) && v.name == Some(StripMark(key)) &&
                                       entries == old(entries)[key := v]
      ensures old(Valid()) ==> Valid()
    {
      if key in entries {
        v := entries[key];
      } else {
        v := new CycVariable(key);
        entries := entries[key := v];
      }
    }

    /** `makeCycVariable`: `?x` and `x` name the same cached variable. */
    method MakeCycVariable(s: string) returns (v: CycVariable)
      modifies this`entries
      ensures StripMark(s) in old(entries) ==> v == old(entries[StripMark(s)]) && entries == old(entries)
      ensures StripMark(s) !in old(entries) ==> fresh(v) && v.name == Some(StripMark(StripMark(s))) &&
                                                entries == old(entries)[StripMark(s) := v]
      ensures GetCache(StripMark(s)) == Some(v)
      ensures old(Valid()) ==> Valid() && v.name.Some?
    {
      v := Intern(StripMark(s));
    }

    /** `makeUniqueCycVariable`: the model's name, `_` and the next suffix. */
    method MakeUniqueCycVariable(model: CycVariable) returns (v: CycVariable)
      modifies this
      ensures suffix == old(suffix) + 1
      ensures var key := UniqueName(model.name, old(suffix));
              && (key in old(entries) ==> v == old(entries[key]) && entries == old(entries))
              && (key !in old(entries) ==> fresh(v) && v.name == Some(StripMark(key)) &&
                                           entries == old(entries)[key := v])
      ensures old(Valid()) ==> Valid() && UniqueCandidate(v.name, model.name, old(suffix))
    {
      var key := UniqueName(model.name, suffix);
      suffix := suffix + 1;
      v := Intern(key);
    }

    /** `addCache`: store the variable under its name; a nameless variable
        is refused. */
    method AddCache(v: CycVariable) returns (r: Outcome<VariableError>)
      modifies this`entries
      ensures v.name == None ==> r == Fail(InvalidForCaching) && entries == old(entries)
      ensures v.name != None ==> r == Pass && entries == old(entries)[v.name.value := v]
      ensures old(Valid()) ==> Valid()
    {
      if v.name == None {
        return Fail(InvalidForCaching);
      }
      entries := entries[v.name.value := v];
      r := Pass;
    }

    /** `removeCache`: afterwards nothing is cached under the name. */
    method RemoveCache(v: CycVariable)
      modifies this`entries
      ensures v.name != None ==> entries == old(entries) - {v.name.value} && GetCache(v.name.value) == None
      ensures v.name == None ==> entries == old(entries)
      ensures old(Valid()) ==> Valid()
    {
      if v.name != None && v.name.value in entries {
        entries := entries - {v.name.value};
      }
    }
  }

  /** Asking twice for the same variable, with or without its `?` mark,
      gives the same object. */
  method MakeTwice(cache: VariableCache, name: string) returns (a: CycVariable, b: CycVariable)
    requires !(|name| > 0 && name[0] == '?')
    modifies cache`entries
    ensures a == b
    ensures old(cache.Valid()) ==> cache.Valid() && a.name.Some?
  {
    a := cache.MakeCycVariable(name);
    assert ("?" + name)[1..] == name;
    b := cache.MakeCycVariable("?" + name);
  }

  /** Two successive `makeUniqueCycVariable` calls give variables with
      different names, whatever the model variables. */
  method MakeTwoUnique(cache: VariableCache, m1: CycVariable, m2: CycVariable) returns (a: CycVariable, b: CycVariable)
    modifies cache
    ensures old(cache.Valid()) ==> cache.Valid() && a.name != b.name
  {
    ghost var s := cache.suffix;
    a := cache.MakeUniqueCycVariable(m1);
    b := cache.MakeUniqueCycVariable(m2);
    if old(cache.Valid()) {
      UniqueCandidatesDiffer(a.name, b.name, m1.name, m2.name, s, s + 1);
    }
  }
}
