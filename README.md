# OpenCyc constraint rules, variables, job assignment, ASCII responses and ELF operators in Dafny

This project models, and proves properties of, the parts of the OpenCyc Java
API that are plain sequential logic:

- **The local rule layer of the constraint solver.**
  - `Rule` (module `Rules`) wraps a formula: a predicate followed by its
    arguments.
    - It keeps the distinct variables of the formula; its arity is their
      count.
    - It splits a top-level `and` into one rule per operand.
    - It classifies itself as all-different, intensional or extensional
      domain-populating, or locally evaluatable.
    - It substitutes or instantiates a variable.
    - It evaluates ground `numericallyEqual`/`and`/`or` formulas, with
      `PlusFn` read as the successor function.
  - `RuleEvaluator.ask` (module `RuleEvaluator`) decides `and`, `or`, `not`,
    `numericallyEqual` and `different` formulas.
  - Formulas are `Terms.Term` values: constants, variables, integers,
    strings, lists and NARTs.
  - `Terms` also gives the three `CycList` helpers the rules rely on:
    - `subst` (replace everywhere);
    - the leaf visitor;
    - printing (`toString`) and `cyclify`.
- **`CycVariable`** (module `Variables`) covers:
  - name normalisation (one leading `?` dropped);
  - printing;
  - equality and ordering by name;
  - the class-wide interning cache;
  - the `_n` suffix generator for fresh names.
- **`JobAssigner`** (module `JobAssignment`) has:
  - the two-pass assignment of a schedule set to the scheduler entries;
  - scheduler creation;
  - the deduplicated resource list;
  - the choice of a schedule set.
- **`CycConnection`** (module `AsciiConnection`) contributes:
  - the port arithmetic of its constructors;
  - the communication-mode check;
  - the character-level reader of ASCII responses (response code, then a
    symbolic expression, a quoted string or an atom);
  - module `ResponseReading` proves that whole responses, as the server
    writes them, are read back as their code's status and their body.
- **The ELF operators `DictionaryEnter` and `NotNull`** (modules
  `ElfExpressions`, `DictionaryEnter` and `NotNull`) each evaluate their
  arguments and print themselves as a symbolic expression.

How the Java code becomes Dafny:

- A Java method that throws is modelled as returning `Err` (or `Fail` for a
  `void` method), with the kind of exception.
- Objects whose fields the Java code updates in place are classes:
  - `Rule`, `CycVariable` and the variable cache;
  - the job assigner's scheduler list;
  - the connection's input cursor;
  - the ELF dictionary (a `Hashtable`).
- Their methods are proved against specification functions on values:
  - `Leaves`, `Subst` and `RemoveFirst` for rules;
  - `MarkAvailable`, `PassOne`, `CreateAll`, `PassTwo` and `Assign` for job
    assignment;
  - `ScanExpression`, `ScanQuoted`, `AtomEnd` and `ReadResponse` for the
    reader.
- The properties the source promises are then proved about those functions.
- Reference semantics give the evaluators an independent partner:
  - `Numeral` and `Constraint` for `evaluateConstraintRule`;
  - `Query` for `ask`.
- Printers have readers as partners:
  - what `Display`, `Quote` and the ELF operators' `toString` write, the
    ASCII reader reads back whole.

Inputs the code takes from outside become parameters:

- the characters the server writes, as a `seq<char>`;
- the scheduler list and the next scheduler id;
- each scheduler's resources;
- the schedule-set predicate's truth;
- `Operator.evaluateArgument`.

## Model

| member | source | states |
|---|---|---|
| Decimal.NatToString | org/opencyc/cycobject/CycVariable.java:76 | the decimal form of the suffix is at least one digit long, all digits, with no leading zero |
| Decimal.NatToStringRoundTrip | org/opencyc/cycobject/CycVariable.java:76 | reading the printed digits back gives the number |
| Decimal.NatToStringInjective | org/opencyc/cycobject/CycVariable.java:76 | different numbers print differently |
| Decimal.Trim | org/opencyc/api/CycConnection.java:694 | `trim` keeps a stretch whose ends are not blanks or control characters |
| Decimal.ParseInt | org/opencyc/api/CycConnection.java:692-698 | a parsed response code is a 32-bit integer read from a non-empty string |
| Decimal.ParseIntRoundTrip | org/opencyc/api/CycConnection.java:692-698 | every 32-bit integer's decimal text parses back to it |
| Decimal.TrimDigits | org/opencyc/api/CycConnection.java:694 | blanks around the digits of a number are removed by `trim` |
| Terms.Leaves | org/opencyc/constraintsolver/Rule.java:128-139 | the leaf visitor yields the atoms of a formula in order, descending into lists but not into NARTs |
| Terms.LeavesHoldVariables | org/opencyc/constraintsolver/Rule.java:128-139 | the variable leaves are exactly the formula's variables |
| Terms.Subst | org/opencyc/constraintsolver/Rule.java:228-235 | `subst` keeps the length and replaces every occurrence of the variable |
| Terms.SubstVarNames | org/opencyc/constraintsolver/Rule.java:228-235 | after substituting `x` for `v`, the variables are the old ones without `v`, plus those of `x` when `v` occurred |
| Terms.SubstAbsent | org/opencyc/constraintsolver/Rule.java:467-473 | substituting a variable that does not occur changes nothing |
| Terms.RenameRoundTrip | org/opencyc/constraintsolver/Rule.java:228-235 | renaming `v` to a fresh `w` and back restores the formula |
| Rules.PredicateName | org/opencyc/constraintsolver/Rule.java:209-211 | the predicate is the head constant; an empty formula or a non-constant head throws |
| Rules.RemoveFirst | org/opencyc/constraintsolver/Rule.java:228-235 | `ArrayList.remove` drops one occurrence, keeps every other element and keeps a duplicate-free list duplicate-free |
| Rules.DistinctCount | org/opencyc/constraintsolver/Rule.java:162-170 | a duplicate-free variable list has as many elements as distinct variables, so arity counts distinct variables |
| Rules.ArityCountsVariables | org/opencyc/constraintsolver/Rule.java:168-170 | `getArity()` of a well-formed rule equals the number of distinct variables in its formula |
| Rules.RuleEqualsIsEquivalence | org/opencyc/constraintsolver/Rule.java:187-192 | `equals` compares formulas only: reflexive, symmetric, transitive, and false against null |
| Rules.Rule.constructor | org/opencyc/constraintsolver/Rule.java:80-83 | the formula is stored at depth 0, and each of its variables is listed exactly once |
| Rules.Rule.AtDepth | org/opencyc/constraintsolver/Rule.java:98-102 | as the plain constructor, at the given backchain depth |
| Rules.Rule.GatherVariables | org/opencyc/constraintsolver/Rule.java:128-139 | afterwards `variables` holds each variable of the formula exactly once and nothing else |
| Rules.Rule.Clone | org/opencyc/constraintsolver/Rule.java:187-201 | a fresh rule equal to the original (formulas only), valid, at depth 0 |
| Rules.Rule.SubstituteVariable | org/opencyc/constraintsolver/Rule.java:228-235 | as written: a non-variable throws and nothing changes; otherwise one occurrence of `v` leaves the list, `x` is appended when it is a variable, and `v` is replaced throughout the formula |
| Rules.SubstituteListsTwice | org/opencyc/constraintsolver/Rule.java:228-235 | substituting one rule variable by another rule variable lists that variable twice |
| Rules.Rule.SubstituteVariableOnce | org/opencyc/constraintsolver/Rule.java:228-235 | corrected: the same substitution keeps every variable listed exactly once |
| Rules.Rule.IsAllDifferent | org/opencyc/constraintsolver/Rule.java:254-262 | true iff there are at least two variables and the predicate is `different`; a non-constant head throws |
| Rules.Rule.IsIntensional | org/opencyc/constraintsolver/Rule.java:409-418 | true iff there is exactly one variable and the predicate is `isa` |
| Rules.Rule.IsExtensional | org/opencyc/constraintsolver/Rule.java:427-437 | true iff there is exactly one variable and the predicate is `elementOf` |
| Rules.Rule.IsDomainPopulating | org/opencyc/constraintsolver/Rule.java:243-246 | true iff intensional or extensional |
| Rules.AllDifferentIsNotDomainPopulating | org/opencyc/constraintsolver/Rule.java:243-262 | an all-different rule never populates a domain |
| Rules.Rule.Instantiate | org/opencyc/constraintsolver/Rule.java:467-473 | a non-variable throws; otherwise a fresh rule at depth 0 with `value` substituted, the receiver unchanged, and a ground value removes the variable |
| Rules.SimplifyRuleExpression | org/opencyc/constraintsolver/Rule.java:112-123 | fewer than two elements throws; an `and` gives one fresh rule per operand in order; anything else gives one rule for the whole formula |
| Rules.NumericallyEvaluate | org/opencyc/constraintsolver/Rule.java:379-399 | an integer is its value; a `PlusFn` expression is its first argument's value plus one; anything else throws |
| Rules.EvaluateNumeral | org/opencyc/constraintsolver/Rule.java:379-399 | every numeral built from integers and `PlusFn` evaluates to its reference value |
| Rules.EvaluatesOnlyNumerals | org/opencyc/constraintsolver/Rule.java:379-399 | whatever evaluates is such a numeral, with that value |
| Rules.EvaluateConstraint | org/opencyc/constraintsolver/Rule.java:340-370 | on every constraint built from `numericallyEqual`, `or` and `and`, evaluation returns exactly the reference truth value |
| Rules.EvaluateConstraintRule | org/opencyc/constraintsolver/Rule.java:340-370 | only a `numericallyEqual`, `or` or `and` head can succeed; any other constant head throws |
| Rules.OrStopsAtFirstTrue | org/opencyc/constraintsolver/Rule.java:340-370 | `or` is true at the first true operand, whatever follows |
| Rules.AndStopsAtFirstFalse | org/opencyc/constraintsolver/Rule.java:340-370 | `and` is false at the first false operand, whatever follows |
| Rules.NumericalArgsAccepted | org/opencyc/constraintsolver/Rule.java:299-331 | as written: the arguments pass iff each is a variable, integer, list or NART and none is an empty list or a `PlusFn` list or NART missing its argument |
| Rules.NumericalArgsEvaluatable | org/opencyc/constraintsolver/Rule.java:299-331 | a throw comes from some argument that is an empty list or a `PlusFn` list or NART missing its argument; a `false` from some argument of none of the accepted kinds |
| Rules.IsEvaluatable | org/opencyc/constraintsolver/Rule.java:273-289 | an evaluatable formula has at least two arguments and a `numericallyEqual`, `and` or `or` head |
| Rules.OperandsAccepted | org/opencyc/constraintsolver/Rule.java:278-285 | the operand loop passes iff every operand is a list whose rule is evaluatable |
| Rules.IsEvaluatableCases | org/opencyc/constraintsolver/Rule.java:273-289 | with at least two arguments: a `numericallyEqual` rule is evaluatable iff `hasEvaluatableNumericalArgs` says so; an `and`/`or` rule iff every operand rule is; any other predicate is not |
| Rules.EvaluatableRuleThatThrows | org/opencyc/constraintsolver/Rule.java:299-331 | a ground formula judged evaluatable whose evaluation throws |
| Rules.StrictIsEvaluatable | org/opencyc/constraintsolver/Rule.java:273-331 | corrected check: same shape as `IsEvaluatable`, numeric arguments restricted to integers and `PlusFn` expressions |
| Rules.StrictEvaluatableEvaluates | org/opencyc/constraintsolver/Rule.java:273-370 | every ground formula passing the corrected check evaluates without throwing |
| RuleEvaluator.NumericArgument | org/opencyc/constraintsolver/RuleEvaluator.java:130-157 | an integer is itself; `(PlusFn n)` is n+1; any other non-empty list is 0; empty or short `PlusFn` lists and non-list atoms throw |
| RuleEvaluator.AskDecides | org/opencyc/constraintsolver/RuleEvaluator.java:96-166 | `ask` decides every well-formed query exactly as the reference semantics does |
| RuleEvaluator.AskAllDecides | org/opencyc/constraintsolver/RuleEvaluator.java:98-109 | `and` holds iff every operand holds |
| RuleEvaluator.AskAnyDecides | org/opencyc/constraintsolver/RuleEvaluator.java:110-121 | `or` holds iff some operand holds |
| RuleEvaluator.NonListOperandThrows | org/opencyc/constraintsolver/RuleEvaluator.java:98-121 | a non-list operand of `and` or `or` throws |
| RuleEvaluator.DoubleNegation | org/opencyc/constraintsolver/RuleEvaluator.java:122-129 | two `not`s cancel, exceptions included |
| RuleEvaluator.NotNeedsTwoElements | org/opencyc/constraintsolver/RuleEvaluator.java:122-129 | a `not` operand of fewer than two elements throws |
| RuleEvaluator.NumericallyEqualReadsTwoArguments | org/opencyc/constraintsolver/RuleEvaluator.java:130-157 | arguments after the third are ignored |
| RuleEvaluator.UnknownFunctionIsZero | org/opencyc/constraintsolver/RuleEvaluator.java:134-155 | for every head other than `PlusFn` and any arguments, the function expression counts as 0, so `numericallyEqual` of it and `n` is proven iff `n` is 0 |
| RuleEvaluator.UnknownPredicateThrows | org/opencyc/constraintsolver/RuleEvaluator.java:162-164 | any other predicate throws; there is no fallback |
| Variables.StripMark | org/opencyc/cycobject/CycVariable.java:97-102 | exactly one leading `?` is dropped |
| Variables.CycVariable.Empty | org/opencyc/cycobject/CycVariable.java:88-89 | a variable without a name |
| Variables.CycVariable.constructor | org/opencyc/cycobject/CycVariable.java:97-102 | the name is the argument with one leading `?` dropped |
| Variables.CycVariable.Cyclify | org/opencyc/cycobject/CycVariable.java:109-122 | `?` followed by the name (`null` when there is none) |
| Variables.CycVariable.Equals | org/opencyc/cycobject/CycVariable.java:148-152 | true iff the other object is a variable with the same name; a nameless argument throws |
| Variables.CycVariable.CompareTo | org/opencyc/cycobject/CycVariable.java:163-167 | `String.compareTo` of the names, by character value: 0 iff equal; a non-variable or missing name throws |
| Variables.CompareZeroIffEqual | org/opencyc/cycobject/CycVariable.java:163-167 | the string order is 0 exactly on equal strings |
| Variables.CompareToAntisymmetric | org/opencyc/cycobject/CycVariable.java:163-167 | swapping the operands negates the comparison |
| Variables.CompareToTransitive | org/opencyc/cycobject/CycVariable.java:163-167 | the order of variables is transitive |
| Variables.UniqueNamesDiffer | org/opencyc/cycobject/CycVariable.java:75-83 | different suffixes give different names, whatever the model names |
| Variables.VariableCache.constructor | org/opencyc/cycobject/CycVariable.java:52 | an empty cache with the suffix counter at 1 |
| Variables.VariableCache.GetCache | org/opencyc/cycobject/CycVariable.java:192-194 | the variable cached under the name, or none |
| Variables.VariableCache.MakeCycVariable | org/opencyc/cycobject/CycVariable.java:59-68 | a hit returns the cached object; a miss stores a fresh variable under the stripped name; afterwards the cache maps that name to the result, and a well-formed cache (each entry named by its key, or its key without the `?` mark) stays so and returns a named variable |
| Variables.MakeTwice | org/opencyc/cycobject/CycVariable.java:59-68 | `x` and `?x` give the same object, a named one when the cache was well-formed |
| Variables.VariableCache.MakeUniqueCycVariable | org/opencyc/cycobject/CycVariable.java:75-83 | interns `name_suffix` and increases the suffix by exactly one; on a well-formed cache the result is named `name_suffix`, possibly with one `?` mark dropped, and the cache stays well-formed (each entry named by its key, or its key without the mark) |
| Variables.UniqueCandidatesDiffer | org/opencyc/cycobject/CycVariable.java:75-83 | names handed out for different suffixes differ, in either form and whatever the model names |
| Variables.MakeTwoUnique | org/opencyc/cycobject/CycVariable.java:52-83 | two successive `makeUniqueCycVariable` calls on a well-formed cache return variables with different names |
| Variables.VariableCache.AddCache | org/opencyc/cycobject/CycVariable.java:179-183 | a nameless variable throws; otherwise it is stored under its name |
| Variables.VariableCache.RemoveCache | org/opencyc/cycobject/CycVariable.java:199-203 | afterwards nothing is cached under the variable's name; all other names are unchanged |
| JobAssignment.MarkAvailable | org/opencyc/elf/bg/planner/JobAssigner.java:313-317 | every entry becomes available, everything else unchanged |
| JobAssignment.FirstMatch | org/opencyc/elf/bg/planner/JobAssigner.java:331-348 | the first available entry whose schedule shares a non-null actuator or sensor name |
| JobAssignment.CreateAll | org/opencyc/elf/bg/planner/JobAssigner.java:353-357 | one new unavailable entry per unmatched schedule, appended in order with consecutive ids |
| JobAssignment.NextAvailable | org/opencyc/elf/bg/planner/JobAssigner.java:359-380 | the first available entry at or after the shared cursor |
| JobAssignment.PassOneBusy | org/opencyc/elf/bg/planner/JobAssigner.java:319-352 | pass one makes one entry busy per matched schedule, and every schedule is matched, deferred or left unmatched |
| JobAssignment.PassOneKeeps | org/opencyc/elf/bg/planner/JobAssigner.java:319-352 | pass one removes no entry and changes no scheduler id |
| JobAssignment.CreateAllBusy | org/opencyc/elf/bg/planner/JobAssigner.java:353-357 | creating schedulers adds one busy entry per unmatched schedule |
| JobAssignment.PassTwoBusy | org/opencyc/elf/bg/planner/JobAssigner.java:359-380 | unless it fails, pass two makes one entry busy per deferred schedule |
| JobAssignment.PassTwoKeeps | org/opencyc/elf/bg/planner/JobAssigner.java:359-380 | pass two removes no entry and changes no scheduler id |
| JobAssignment.PassTwoFails | org/opencyc/elf/bg/planner/JobAssigner.java:359-380 | pass two fails exactly when a schedule follows one that had to create an entry |
| JobAssignment.PassTwoFailedStays | org/opencyc/elf/bg/planner/JobAssigner.java:359-380 | once the iterator has failed, later schedules change nothing |
| JobAssignment.AssignCountsSchedules | org/opencyc/elf/bg/planner/JobAssigner.java:311-381 | after a successful assignment, the number of unavailable entries is the number of schedules |
| JobAssignment.AssignKeepsSchedulers | org/opencyc/elf/bg/planner/JobAssigner.java:311-381 | no entry is removed, and existing entries keep their scheduler |
| JobAssignment.AssignLeavesIdleEntries | org/opencyc/elf/bg/planner/JobAssigner.java:311-381 | entries left available are old entries that keep their previous schedule |
| JobAssignment.JobAssigner.constructor | org/opencyc/elf/bg/planner/JobAssigner.java:463 | the scheduler list and the next id, taken as given |
| JobAssignment.JobAssigner.MarkAllAvailable | org/opencyc/elf/bg/planner/JobAssigner.java:313-317 | the list becomes `MarkAvailable` of the old list |
| JobAssignment.JobAssigner.AssignDirectSchedules | org/opencyc/elf/bg/planner/JobAssigner.java:319-352 | the list, deferred and unmatched schedules are those of `PassOne` |
| JobAssignment.JobAssigner.CreateSchedulers | org/opencyc/elf/bg/planner/JobAssigner.java:353-357 | the list becomes `CreateAll` of the old list; the id counter advances by their number |
| JobAssignment.JobAssigner.CreateScheduler | org/opencyc/elf/bg/planner/JobAssigner.java:387-396 | appends one unavailable entry holding the schedule, with the next id |
| JobAssignment.JobAssigner.AssignDeferredSchedules | org/opencyc/elf/bg/planner/JobAssigner.java:359-380 | the list and the outcome are those of `PassTwo` from cursor 0 |
| JobAssignment.JobAssigner.TakeNextAvailable | org/opencyc/elf/bg/planner/JobAssigner.java:364-376 | the shared iterator stops after the first available entry at or after its cursor (`NextAvailable`) and gives it the schedule, or runs off the end leaving the list unchanged |
| JobAssignment.JobAssigner.AssignSchedulesToSchedulers | org/opencyc/elf/bg/planner/JobAssigner.java:311-381 | the new list is `Assign` of the old one; it fails only with the iterator's concurrent-modification error |
| JobAssignment.AllResourcesHold | org/opencyc/elf/bg/planner/JobAssigner.java:158-172 | a resource is collected iff some scheduler has it |
| JobAssignment.Dedup | org/opencyc/elf/bg/planner/JobAssigner.java:158-172 | no duplicates, the same elements |
| JobAssignment.DedupOfDistinct | org/opencyc/elf/bg/planner/JobAssigner.java:158-172 | a duplicate-free list is kept as it is |
| JobAssignment.JobAssigner.GetResources | org/opencyc/elf/bg/planner/JobAssigner.java:158-172 | the union of all schedulers' resources, in first-occurrence order, without duplicates |
| JobAssignment.DetermineBestScheduleSet | org/opencyc/elf/bg/planner/JobAssigner.java:278-282 | the first alternative; none throws |
| JobAssignment.DetermineScheduleSet | org/opencyc/elf/bg/planner/JobAssigner.java:289-299 | the schedule set of the first conditional set whose predicate holds; throws iff none holds |
| AsciiConnection.Wrap32 | org/opencyc/api/CycConnection.java:225-226 | Java `int` arithmetic: the result is in 32-bit range and equals the exact value when that is in range |
| AsciiConnection.PortsFromBase | org/opencyc/api/CycConnection.java:224-226 | ASCII port is base + 1 and CFASL port is base + 14, wrapping as Java `int`s |
| AsciiConnection.PortsFromSocket | org/opencyc/api/CycConnection.java:185-186 | the base port is the socket port − 14 and the ASCII port base + 1; the CFASL port field stays 0 |
| AsciiConnection.SocketRecoversBasePort | org/opencyc/api/CycConnection.java:185-186 | a socket on a server's CFASL port recovers that server's base and ASCII ports, for every 32-bit base port |
| AsciiConnection.CycConnection.FromSocket | org/opencyc/api/CycConnection.java:182-193 | ports from the socket, binary mode, reading from the start |
| AsciiConnection.CycConnection.constructor | org/opencyc/api/CycConnection.java:221-227 | ports derived from the base port, the given mode |
| AsciiConnection.Open | org/opencyc/api/CycConnection.java:221-230 | a mode other than 1 (ASCII) or 2 (binary) throws; otherwise a connection with derived ports |
| AsciiConnection.FirstSpace | org/opencyc/api/CycConnection.java:682-691 | the first space at or after the cursor, with no space before it |
| AsciiConnection.ResponseCodeBounds | org/opencyc/api/CycConnection.java:682-702 | no space left is end of stream; a code read ends just after a space beyond the cursor and is a 32-bit integer |
| AsciiConnection.ReadResponseParts | org/opencyc/api/CycConnection.java:677-719 | a failed code read fails the response with the same error; otherwise the status is true iff the code is 200, the body is the text right after the code, and the new position lies after it within the input |
| AsciiConnection.AtomEnd | org/opencyc/api/CycConnection.java:785-800 | the first carriage return or line feed, with none before it |
| AsciiConnection.CycConnection.ReadResponseCode | org/opencyc/api/CycConnection.java:682-698 | reads through the first space and parses the trimmed digits; a bad code throws |
| AsciiConnection.CycConnection.ReadSymbolicExpression | org/opencyc/api/CycConnection.java:726-753 | returns exactly the characters consumed, through the one that brings the depth to 0; quotes toggle string mode, in which parentheses do not count |
| AsciiConnection.CycConnection.ReadQuotedString | org/opencyc/api/CycConnection.java:760-778 | returns the opening quote, the content with backslashes kept and the closing quote: the consumed characters |
| AsciiConnection.CycConnection.ReadAtom | org/opencyc/api/CycConnection.java:785-800 | returns the characters before the first CR or LF and leaves it unread |
| AsciiConnection.CycConnection.ReadAsciiCycResponse | org/opencyc/api/CycConnection.java:677-719 | the result and new position are `ReadResponse`'s; `isSymbolicExpression` is set iff the body starts with `(` |
| AsciiConnection.PrintedThrough | org/opencyc/api/CycConnection.java:739-749 | a printed or cyclified term leaves the expression reader's depth and string mode as they were |
| AsciiConnection.ReadsPrintedList | org/opencyc/api/CycConnection.java:726-753 | what the list printer writes, the expression reader reads back whole |
| AsciiConnection.ReadsQuotedString | org/opencyc/api/CycConnection.java:760-778 | a string written with `"` and `\` escaped is read back whole |
| ResponseReading.ListIsDelimited | org/opencyc/api/CycConnection.java:726-753 | a printed list followed by a newline is a body the expression reader ends exactly at the newline |
| ResponseReading.StringIsDelimited | org/opencyc/api/CycConnection.java:760-778 | so is a quoted string followed by a newline |
| ResponseReading.ReadsDelimitedResponse | org/opencyc/api/CycConnection.java:677-719 | code, space, such a body, newline: read back as the code's status and that body, with the newline consumed |
| ResponseReading.ReadsAtomResponse | org/opencyc/api/CycConnection.java:677-719 | the same for an atom body: no line end inside, not starting with `(` or `"` |
| ResponseReading.ReadsResponse | org/opencyc/api/CycConnection.java:677-719 | any body the body reader ends right before the newline is read back whole after the code |
| ElfExpressions.Dictionary.Put | org/opencyc/elf/bg/dictionary/DictionaryEnter.java:65 | `Hashtable.put`: null key or value throws; otherwise only that key's entry is written |
| ElfExpressions.RenderThrough | org/opencyc/elf/bg/dictionary/DictionaryEnter.java:78-87 | a quoted string, a cyclified list or a plain object leaves the reader's state unchanged |
| ElfExpressions.PlainStringThrough | org/opencyc/elf/bg/dictionary/DictionaryEnter.java:100 | so does the third argument's plain `toString` |
| ElfExpressions.FormIsExpression | org/opencyc/elf/bg/dictionary/DictionaryEnter.java:75-102 | `(name arg …)` with such arguments is one symbolic expression the ASCII reader delimits exactly |
| DictionaryEnter.Evaluate | org/opencyc/elf/bg/dictionary/DictionaryEnter.java:59-67 | not three arguments throws; a null or non-dictionary third value throws; otherwise the dictionary maps key to value, other keys unchanged, and the key is returned |
| DictionaryEnter.ToString | org/opencyc/elf/bg/dictionary/DictionaryEnter.java:75-103 | a printed operator needs three arguments, starts with `(dictionary-enter ` and ends with `)` |
| DictionaryEnter.ToStringFails | org/opencyc/elf/bg/dictionary/DictionaryEnter.java:75-103 | printing fails iff an argument is missing or null; arguments after the third are ignored |
| DictionaryEnter.ToStringIsExpression | org/opencyc/elf/bg/dictionary/DictionaryEnter.java:75-103 | the printed operator is one symbolic expression the ASCII reader reads back whole |
| NotNull.EvaluateReadsFirst | org/opencyc/elf/bg/predicate/NotNull.java:54-56 | true iff the first argument's value is not null; further arguments are ignored |
| NotNull.Evaluate | org/opencyc/elf/bg/predicate/NotNull.java:54-56 | throws iff there is no argument; otherwise true iff the first argument evaluates to non-null |
| NotNull.ToString | org/opencyc/elf/bg/predicate/NotNull.java:64-79 | a printed predicate needs an argument, starts with `(not-null ` and ends with `)` |
| NotNull.ToStringFails | org/opencyc/elf/bg/predicate/NotNull.java:64-79 | printing fails iff the first argument is missing or null |
| NotNull.ToStringIsExpression | org/opencyc/elf/bg/predicate/NotNull.java:64-79 | the printed predicate is one symbolic expression the ASCII reader reads back whole |

## Left out

- `CycList` itself is not part of this model.
  - `first`, `second`, `third`, `rest`, `get`, `subst`, `cycListVisitor`, `containsDuplicates`, `toString` and `cyclify` are defined here on `Term` values.
  - A missing element is taken to throw.
- The `Rule(String, CycAccess)` constructor parses through a live knowledge-base connection. Rules are built from terms instead.
- `Rule.toString`/`cyclify` and the `getRule`, `getVariables` and `getArguments` accessors are plain field reads and are not separate members.
- Rules.Rule.GatherVariables: variables are identified by name, so `variables` lists each name once and the arity counts distinct names. `CycVariable` overrides `equals` but not `hashCode`, so the source's `HashSet` keeps two distinct objects that share a name. Such objects arise after `removeCache` followed by `makeCycVariable`, or after the cache evicts an entry. For them Java's `getArity` counts the name twice. The model's arity agrees with Java only when each name is a single interned object.
- The order of `Rule.variables`: the source fills it from a `HashSet`, whose order is unspecified. The model lists variables in first-occurrence order, and contracts speak only of membership and distinctness.
- `RuleEvaluator.ask` is modelled on the formula of the rule it is given, not on the `Rule` object.
- 64-bit `long` overflow in `PlusFn` arithmetic is not modelled: values are mathematical integers.
- `CycVariable`'s LRU eviction (`CacheLRU(500)`): the cache is an unbounded map.
- Variables.CycVariable.CompareTo: names are compared by Unicode scalar value and length in scalar values, not by Java's UTF-16 code units. The two orders differ when a name holds a character outside the Basic Multilingual Plane: `"\u{10000}"` is below `"\u{FFFF}"` in Java (surrogate 0xD800 against 0xFFFF), and above it here.
- `CycVariable`'s `id` field is not used by the modelled operations.
- Variables.VariableCache.MakeUniqueCycVariable: the `int` suffix is unbounded, so its wrap-around after 2^31 − 1 calls is not modelled.
- Variables.VariableCache.RemoveCache: the source stores null under the name, and the model deletes the key. The two are indistinguishable through `getCache`.
- `JobAssigner` threads, channels, the `Consumer` loop, task-frame lookup and the creation of real `Scheduler` objects are left out. A scheduler is an id, and `schedulerInfos`, which the source never initialises, is an input.
- `SchedulerInfo` records are values: aliasing between list entries and outside references is not modelled.
- JobAssignment.JobAssigner.AssignSchedulesToSchedulers: an available entry holding a null previous schedule is not modelled, because `SchedulerInfo.schedule` is never null here. In the source, pass one would throw a `NullPointerException` at `previousSchedule.getActuatorName()` after every entry has been marked available and earlier direct schedules have taken entries. Neither that exception nor the partial updates made before it are modelled.
- The job assigner's `getLogger().info` and `severe` messages (when a scheduler matches, a scheduler is created, a deferred schedule is placed, or no schedule set applies) are output only. They are left out.
- Integer.parseInt's acceptance of non-ASCII Unicode digits is not modelled: only `0`–`9` are digits.
- AsciiConnection.CycConnection.ReadAsciiCycResponse: at end of stream the Java readers keep reading -1 (the code loop until its timer fires), and the model reports `EndOfStream` instead.
- Sockets, CFASL streams, the timeout timer, trace printing and the socket setup after the mode check are left out.
- `Operator.evaluateArgument` is a parameter function of the argument: its dependence on the behaviour-engine state and any side effects are not modelled.
- DictionaryEnter.Evaluate: the caller supplies the evaluated dictionary as an existing object (an allocation precondition Java needs no counterpart for).
- The ELF operators' other Java objects (not strings or `CycList`s) are represented by their `toString` text.

## Findings

| source | as written | input that shows it | evidently intended | confidence | as-written member | corrected member |
|---|---|---|---|---|---|---|
| org/opencyc/constraintsolver/Rule.java:228-235 | `substituteVariable` removes `v` from `variables` and appends `x` when it is a variable, even if `x` is already listed | rule `(different ?x ?y)`, substitute `?y` for `?x`: `variables` becomes `[?y, ?y]` and the arity 2 although one variable remains | each variable listed once, so arity counts distinct variables | high (not executed) | Rules.SubstituteListsTwice | Rules.Rule.SubstituteVariableOnce |
| org/opencyc/constraintsolver/Rule.java:299-331 | `hasEvaluatableNumericalArgs` accepts any list or NART argument, so `isEvaluatable` holds for formulas `evaluateConstraintRule` cannot evaluate | `(numericallyEqual (PlusFn "a") 1)`: ground and evaluatable, yet evaluation throws | only integers and well-formed `PlusFn` expressions accepted, so evaluatable ground rules evaluate | medium (not executed) | Rules.EvaluatableRuleThatThrows | Rules.StrictEvaluatableEvaluates |
