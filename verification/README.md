# Falcon: a verified model of its core

This project models the parts of Falcon whose correctness is not visible from
any single function, and proves properties of them.

| file | what it models |
|---|---|
| `Prelude.dfy` | what several components share |
| `Ast.dfy` | the syntax tree that the parser hands to the interpreter |
| `Matching.dfy`, `Calls.dfy` | how call arguments are paired with parameters, and what a call then passes on |
| `Semantics.dfy` | the interpreter as functions on states: all live variable maps, and the shared heap of struct instances and tuples |
| `FuelIndependence.dfy` | the nesting bound of those functions never changes a result |
| `Operators.dfy` | what operators compute, for all operands |
| `Names.dfy` | how names lead to variables, functions, structs, routines and states |
| `Bindings.dfy`, `Starting.dfy`, `Statements.dfy` | which value goes where: argument lists, parameters, inputs, variables, fields, targets and results |
| `Expressions.dfy` | what logical operators, method calls and indexing mean in terms of other expressions |
| `HeapGrowth.dfy` | what evaluation may do to the heap |
| `Runs.dfy` | whole autotuner runs (module `Runs`), and `if`/`elif`/`else` chains (module `Elif`) |
| `Flattening.dfy`, `Divergence.dfy` | copying a receiver's fields into a struct routine's environment and back, and routines that see the copies differ |
| `Interpreter.dfy` | the interpreter as the source runs it: one object whose maps and heap change in place |
| `TypeNames.dfy`, `Monomorphize.dfy`, `Substitutions.dfy`, `Instances.dfy` | printed type names, the registry that caches generic instances under them, what substitution does to types, and what an instance consists of |
| `GaussJordan.dfy`, `Peaks.dfy` | the numeric kernel of the charge-tuning demo, over the real numbers |
| `ImportResolver.dfy`, `Loader.dfy` | the two walks over the import graph: language server and engine |
| `PackageCache.dfy` | the content-addressed file cache, with crashes between any two file operations |
| `GrowArray.dfy`, `ReplaceAll.dfy` | the growable array of the tree-sitter runtime, and in-place text replacement |

`dfyconfig.toml` lists all files; `dafny verify dfyconfig.toml` checks them.

## How the interpreter is modelled

`Semantics` defines evaluation, execution and runs by mutual recursion. The source
recurses through C++ references to variable maps; here a state holds the stack of
all live maps, so that "nothing else changes" can be said about every map at once.
Struct instances are addresses in one heap, as they are shared pointers in the
source. Foreign functions are parameters: they may change the heap in any way but
see no environment. A bound (`fuel`) on the nesting of calls plus the number of
transitions makes the functions total; a run that needs more ends as `OutOfFuel`.
`FuelIndependence` shows that a run that ends under one bound ends in the same way
under every larger one, so the bound is not part of any result.

The class `Interpreter.Interpreter` has the form of the source: its methods reassign
the maps and the heap in loops, move the caller's variables aside, erase state
locals one by one and copy fields back and forth. Each method is proved to do what
the function of the same purpose does, and everything proved about the functions
therefore holds of the methods.

## What the proofs found

* **The pivot exchange is a row copy** (`qarray-wrapper.cpp:711-714`). The inversion
  returns if and only if at every column no entry below the diagonal is larger than
  the diagonal one, which must reach the threshold. Otherwise a duplicate row becomes
  a zero row and the run ends as "singular", also for perfectly conditioned matrices:
  `GaussJordan.ExchangeOfTwoGatesIsRejected` rejects the exchange of two gates. What is
  returned is always a two-sided inverse.
* **A falling shelf is reported one sample late.** The comment at
  `qarray-wrapper.cpp:439` promises the first index of a plateau; `Peaks.WhereARunIsReported`
  gives the exact index. `Peaks.ShelfIsReportedLate` is a signal for which the detector,
  with its default of two deviations, reports the second.
* **Writes to a bare field name in an `else` or `elif` branch are lost.** At the top level of a
  struct routine the parser turns `f = e` into `this.f = e` (`compiler/src/parser.y:398-404`);
  in these branches it does not (`:796`, `:869-885`). The write reaches the flat copy, and
  the synchronisation overwrites the copy with the old field (`ExprEvaluator.cpp:491-504`):
  `Flattening.LeavingKeepsHeap` shows that nothing a body writes to copies alone ever reaches
  a receiver that holds all fields, and `Divergence.BareWriteIsLost` has a routine that
  returns the new value while the receiver keeps the old one.
* **The copies of struct fields can diverge.** A field assignment updates the flat
  copy by field name, whatever object is assigned to (`StmtExecutor.cpp:285-288`).
  There are three ways of assigning to a declared field, and for each it is stated exactly
  when the copies stay true: `Flattening.BareWriteKeepsCopies`, `Flattening.AssignmentKeepsCopies`
  and, for a field among several targets, which the executor allows though the grammar in
  `parser.y` does not, `Flattening.TupleTargetKeepsCopies`. Module `Divergence` has
  a routine for each that returns another value than it would without copies.
* **Logical operators do not short-circuit** (`ExprEvaluator.cpp:275-279`). They have the usual
  meaning if and only if a right operand that is not needed returns and changes nothing.
* **An integer never equals a float** (`ExprEvaluator.cpp:1024-1029`), although both can be compared:
  `1 <= 1.0` and `1 >= 1.0` hold and `1 == 1.0` does not (`Operators.FloatComparison`). Of
  less, equal and greater exactly one holds for two integers and for two floats only.
* **Generic parameters are substituted only where they stand as whole tokens**
  (`ExprEvaluator.cpp:15-25` and `:104-155`). In field and input types nothing inside brackets
  is substituted. In an output type of the struct itself the names between commas are,
  so a parameter is missed exactly when it is the first, the last or the only argument of
  a nested type: `Box<Box<T>>` keeps its `T`, while `Box<Tri<int,T,int>>` does not.
  What replaces a parameter is treated as an output type again: a parameter that stands
  for the bare struct becomes the instance. `Substitutions.OutputIsExact` has the exact
  condition for every output type.
* **The loader has no cycle guard**, although the comment at `AutotunerEngine.cpp:85`
  says that loaded modules are tracked to avoid infinite recursion: a file counts as
  loaded only after its imports. A load ends whenever no cycle can be reached from the
  file; if all files it reaches can be loaded, it ends if and only if that is so.
* **A store can cache other content than it hashed.** `store` reads the source twice, to
  hash it and to copy it (`PackageCache.cpp:128` and `:133`). If the source changes in
  between and back afterwards, lookup returns the wrong content
  (`PackageCache.StoreMayCopyOtherContent`). Over every history lookup is right, now and
  after any further changes, if and only if no store did that and left the copy in use.
* **Doubling the array wraps at 2^31 elements.** The moves of m pushes are at most 2 m if and
  only if m <= 2^31 + 1; from then on every push moves the whole array.

## Model

| member | source | states |
|---|---|---|
| `Interpreter.Interpreter.Evaluate` | dsl/src/ExprEvaluator.cpp:197-227 | evaluating any expression in place ends with the value or error and the heap of the definitional interpreter, and leaves all environments as they were |
| `Semantics.Eval` | dsl/src/ExprEvaluator.cpp:253-301 | on return and on error, at any depth of nested calls, every live environment is exactly as before; the two internal "output not set" errors are never raised |
| `Operators.LiteralsAreValues` | dsl/src/ExprEvaluator.cpp:239-251 | literals evaluate to the values they are written with |
| `Operators.IntegerArithmetic` | dsl/src/ExprEvaluator.cpp:951-1023 | sum and product of integers; the difference added to the right operand is the left one; the quotient is the truncated one, and division by zero is an error |
| `Operators.TruncatedIsUnique` | dsl/src/ExprEvaluator.cpp:1003-1010 | only one number leaves a rest smaller than the divisor with the sign of the dividend |
| `Operators.IntegerComparison` | dsl/src/ExprEvaluator.cpp:1024-1090 | exactly one of less, equal and greater holds, and the other three comparisons are their complements |
| `Operators.FloatSums` | dsl/src/ExprEvaluator.cpp:951-986 | an integer with a float gives the sum and difference of two floats |
| `Operators.FloatProducts` | dsl/src/ExprEvaluator.cpp:987-1002 | and their product |
| `Operators.FloatQuotients` | dsl/src/ExprEvaluator.cpp:1003-1023 | and the number that times the divisor is the dividend; division by zero is an error |
| `Operators.FloatComparison` | dsl/src/ExprEvaluator.cpp:1024-1090 | comparisons are those of two floats, but an integer equals no float |
| `Operators.StringOperators` | dsl/src/ExprEvaluator.cpp:951-1029 | strings are concatenated and compared for equality, and nothing else |
| `Operators.BooleanOperators` | dsl/src/ExprEvaluator.cpp:1024-1096 | conjunction, disjunction and equality of booleans |
| `Operators.OperandsMustFit` | dsl/src/ExprEvaluator.cpp:948-1099 | equality is defined for all values, and every other combination of operands is an error |
| `Operators.UnaryOperators` | dsl/src/ExprEvaluator.cpp:1101-1116 | a negation added to its operand is zero, not changes a boolean, other operands are errors |
| `Names.VariableOfName` | dsl/src/ExprEvaluator.cpp:253-273 | a name means the variable of that name, and a qualified one without such a variable that of its last part |
| `Semantics.EvalList` | dsl/src/ExprEvaluator.cpp:229-237 | a list of expressions gives one value each and leaves every environment as it was |
| `Bindings.ListIsInOrder` | dsl/src/ExprEvaluator.cpp:229-237 | value i is that of expression i, evaluated in the state that expression i - 1 left |
| `Bindings.TransitionCarriesValues` | dsl/src/StmtExecutor.cpp:320-328 | a transition carries the values of its arguments in the written order |
| `Expressions.LogicalOperatorsEvaluateBoth` | dsl/src/ExprEvaluator.cpp:275-279 | an error of the right operand is raised even when the left one decides; the operator means what a short-circuiting one does if and only if an operand not needed returns and changes nothing |
| `Interpreter.Interpreter.GetField` | typing/include/falcon-typing/PrimitiveTypes.hpp:141-143 | reading a missing field stores a default integer in the shared instance and returns it |
| `Statements.FieldIsRead` | dsl/src/ExprEvaluator.cpp:286-297 | a field has its value; a missing one is zero from then on, and nothing else changes |
| `Interpreter.Interpreter.EvaluateCall` | dsl/src/ExprEvaluator.cpp:829-940 | a call finds its function, matches, evaluates in matching order, applies and wraps as the definition says |
| `Calls.CallAppliesFunction` | dsl/src/ExprEvaluator.cpp:829-940 | a call that returns applied its function to the arguments matched with its signature and made one value of the results |
| `Names.FunctionOfName` | dsl/src/ExprEvaluator.cpp:829-848 | a function is found by its name, or by the last part of a qualified one |
| `Names.ArgumentsAreNumbered` | dsl/src/ExprEvaluator.cpp:712-730 | a built-in method gets argument i under the name arg followed by i |
| `Statements.BuiltinMethodReceives` | dsl/src/ExprEvaluator.cpp:696-742 | a built-in method gets its receiver and the numbered arguments, and its results and heap are those of the call |
| `Statements.ResultsAreWrapped` | dsl/src/ExprEvaluator.cpp:931-940 | no result is nil, one is itself, several are a new tuple with the results in order |
| `Semantics.EvalCall` | dsl/src/ExprEvaluator.cpp:829-940 | a call of an autotuner, an inline routine or a foreign function leaves all environments unchanged however it ends |
| `Expressions.TypeIsCalledUnlessShadowed` | dsl/src/ExprEvaluator.cpp:531-562 | a receiver naming a struct means the type if and only if no variable has that name, qualified or not; else the call is on that variable |
| `Expressions.IndexIsGetIndexCall` | dsl/src/ExprEvaluator.cpp:742-827 | for a struct with a GetIndex routine, indexing equals the method call of that name, in value, error and state, unless evaluating the index replaces the routine |
| `Interpreter.Interpreter.ExecStructRoutine` | dsl/src/ExprEvaluator.cpp:306-517 | a struct routine runs in an environment of its own, dropped at the end, with the definition's result and heap |
| `Interpreter.Interpreter.FlattenReceiver` | dsl/src/ExprEvaluator.cpp:392-422 | every declared field gets a flat copy: the instance's value, its initialiser or its default, in order |
| `Interpreter.Interpreter.SyncReceiver` | dsl/src/ExprEvaluator.cpp:484-504 | instance fields replace the flat copies first, and then all copies are written back |
| `Interpreter.Interpreter.InitializeResults` | dsl/src/ExprEvaluator.cpp:439-479 | struct outputs are fresh initialised instances, other outputs exist only if they have a default |
| `Interpreter.Interpreter.BindParameters` | dsl/src/Interpreter.cpp:153-174 | given arguments are bound in order and missing ones take their default or raise an error |
| `Bindings.ParametersHoldArguments` | dsl/src/ExprEvaluator.cpp:424-437 | with distinct names parameter i holds argument i, and a later one its default, evaluated once those before it are bound |
| `Starting.RoutineStartsWithArguments` | dsl/src/ExprEvaluator.cpp:384-479 | when the body of a struct routine starts, parameter i holds argument i, whatever fields and outputs are called |
| `Starting.FieldsAreCopied` | dsl/src/ExprEvaluator.cpp:392-422 | the copy of a field is the receiver's value, else its initialiser, else its default, in order |
| `Starting.InstanceFieldsAreSet` | dsl/src/ExprEvaluator.cpp:587-622 | fields of a new instance get initialiser, new instance or default, in order, each written when it is found |
| `Starting.InstanceComesFirst` | dsl/src/ExprEvaluator.cpp:586-650 | a call on a type sets the fields of a new instance before it evaluates any argument |
| `Statements.RoutineReturnsOutputs` | dsl/src/ExprEvaluator.cpp:481-517 | output i is what the body left in that variable, or the receiver's field of that name |
| `Statements.ForeignRoutineReceives` | dsl/src/ExprEvaluator.cpp:322-360 | a foreign routine gets the receiver, argument i under the name of input i, and this exactly for foreign objects |
| `Statements.ForeignIndexReceives` | dsl/src/ExprEvaluator.cpp:774-800 | indexing an object without a routine GetIndex calls the foreign one with the object and the index by name |
| `Flattening.SyncStoresCopies` | dsl/src/ExprEvaluator.cpp:498-504 | the write-back stores every copy in the receiver and changes no other object |
| `Semantics.RunRoutine` | dsl/src/ExprEvaluator.cpp:306-517 | a struct routine, foreign or not, leaves every live environment unchanged, also on error |
| `Flattening.FlatteningPreservesMeaning` | dsl/src/ExprEvaluator.cpp:384-517 | for a receiver holding all fields and a call-free body whose writes to fields go through this, running on flat copies gives the outputs, errors and heap of running with every field name read through this |
| `Flattening.SimulateStmt` | dsl/src/StmtExecutor.cpp:43-83 | every statement keeps the relation between the flattened and the unflattened run, with equal flow and equal errors |
| `Flattening.SyncKeepsReceiver` | dsl/src/ExprEvaluator.cpp:484-504 | whatever the copies hold, the final synchronisation and write-back leave a receiver with all its fields, and the whole heap, as they are |
| `Flattening.LeavingKeepsHeap` | dsl/src/ExprEvaluator.cpp:484-517 | so leaving a routine never changes the heap, whether it returns or misses an output |
| `Flattening.BareWriteKeepsCopies` | dsl/src/StmtExecutor.cpp:167-245 | after a plain assignment to a field name the copies agree with the receiver if and only if the value is the one it has |
| `Flattening.AssignmentKeepsCopies` | dsl/src/StmtExecutor.cpp:247-291 | after a field assignment the copies agree with the receiver if and only if it was assigned to or the value is the one it has |
| `Flattening.TupleTargetKeepsCopies` | dsl/src/StmtExecutor.cpp:167-245 | after a field target of a multiple assignment they agree if and only if the receiver was not assigned to or keeps its value |
| `Divergence.AssigningOtherDiverges` | dsl/src/StmtExecutor.cpp:247-291 | a routine that assigns the field of an argument returns another value than without copies if and only if the argument is not the receiver and the value is new to it |
| `Divergence.BareWriteIsLost` | dsl/compiler/src/parser.y:790-885 | a routine with such a write in an else branch returns the value and never changes the receiver; through this it would, and without copies it would return the old value; each difference shows if and only if the value is new |
| `Divergence.AssigningPairDiverges` | dsl/src/StmtExecutor.cpp:167-245 | the executor, run on a routine that assigns the field as one of two targets, returns the old value, which differs if and only if the value is new |
| `Interpreter.Interpreter.ExecuteBlock` | dsl/src/StmtExecutor.cpp:85-98 | statements run in order until one leaves the block |
| `Interpreter.Interpreter.Execute` | dsl/src/StmtExecutor.cpp:43-83 | each kind of statement has the flow, state and error of the definition |
| `Semantics.Exec` | dsl/src/StmtExecutor.cpp:43-83 | a statement changes only the current environment, which loses no variable, on return and on error |
| `Statements.AssignmentStores` | dsl/src/StmtExecutor.cpp:167-245 | an assignment stores the value in its variable and changes nothing else |
| `Statements.FieldAssignmentStores` | dsl/src/StmtExecutor.cpp:247-291 | a field assignment stores the value in the instance and in a variable of the field's name, and changes nothing else |
| `Statements.BlockInTwoParts` | dsl/src/StmtExecutor.cpp:85-98 | a block is its first part, and then the rest unless the first part leaves |
| `Statements.ConditionSelects` | dsl/src/StmtExecutor.cpp:300-316 | the condition is evaluated first; its value selects one body, and is an error if it is no boolean |
| `Interpreter.Interpreter.DeclareVariable` | dsl/src/StmtExecutor.cpp:100-165 | only the declared variable changes, and on error nothing does, whatever the initialiser calls; an uninitialised struct variable gets a new instance of its own; only nil and void types need an initialiser |
| `Interpreter.Interpreter.AssignTuple` | dsl/src/StmtExecutor.cpp:167-245 | the targets of a multiple assignment are stored one after the other, effects of a failing prefix included |
| `Statements.TargetsGetTheirValues` | dsl/src/StmtExecutor.cpp:167-245 | variable i of several targets gets value i, unless it is a target again later |
| `Elif.DesugaringPreservesMeaning` | dsl/parser.tab.cc:5084-5192 | the nested conditional built for a chain has the flow, environments, heap and errors of the list of branches |
| `Elif.LaterConditionsAreNotEvaluated` | dsl/src/StmtExecutor.cpp:300-318 | replacing everything after the selected branch changes neither selection nor state |
| `Interpreter.Interpreter.RunAutotuner` | dsl/src/Interpreter.cpp:22-104 | the caller's variables are back however a run ends, and a returning run gives one value per declared output |
| `Interpreter.Interpreter.RunStates` | dsl/src/Interpreter.cpp:55-90 | the state loop follows transitions with their arguments until a terminal, an unknown state or a state that is not left |
| `Interpreter.Interpreter.ExecuteState` | dsl/src/Interpreter.cpp:134-190 | a state binds its parameters, runs its body, and then loses its locals |
| `Starting.StateStartsWithArguments` | dsl/src/Interpreter.cpp:134-190 | parameter i of a state holds argument i, and afterwards the earlier variables have the values that the body left |
| `Starting.StateRejectsExtraArguments` | dsl/src/Interpreter.cpp:146-158 | a state takes no more arguments than it has parameters |
| `Interpreter.Interpreter.CleanUp` | dsl/src/Interpreter.cpp:180-187 | erasing one by one leaves exactly the saved globals, with their current values |
| `Interpreter.Interpreter.SetInputParameters` | dsl/src/Interpreter.cpp:114-132 | inputs take the given value, else their default in order, else an error |
| `Starting.RunInputsHold` | dsl/src/Interpreter.cpp:114-132 | with distinct names a given input holds the given value, and any other its default, evaluated once the inputs before it are set |
| `Starting.MissingInput` | dsl/src/Interpreter.cpp:114-132 | an input with neither is the error, if those before it can be set |
| `Starting.RunStartsWithInputs` | dsl/src/Interpreter.cpp:31-66 | given inputs still hold the given values when the first state is entered |
| `Starting.VariablesAreStored` | dsl/src/Interpreter.cpp:106-112 | variables hold their initialisers or the default of their type, or a new instance, in order |
| `Starting.RunOutputsAreStored` | dsl/src/Interpreter.cpp:39-52 | an output keeps the value of a variable of its name, else holds its default, else zero |
| `Starting.EntryArgumentsInOrder` | dsl/src/Interpreter.cpp:55-66 | the first state gets the values of the entry arguments, in order |
| `Statements.StatesMustLeave` | dsl/src/Interpreter.cpp:68-91 | a state whose body ends without a transition is an error |
| `Interpreter.Interpreter.InitializeOutputs` | dsl/src/Interpreter.cpp:39-52 | an output that is not a variable yet becomes one, so that states treat it as global |
| `Interpreter.Interpreter.ExtractOutputs` | dsl/src/Interpreter.cpp:203-216 | the declared outputs in order, or the first that is not set |
| `Statements.OutputsAreCollected` | dsl/src/Interpreter.cpp:203-216 | value i is that of output i, or the first output without a value is named |
| `Interpreter.Interpreter.ApplyFunction` | dsl/src/AutotunerEngine.cpp:433-540 | a registered autotuner or inline routine runs as the definition says, an inline routine in a map of its own |
| `Starting.InlineStartsWith` | dsl/src/AutotunerEngine.cpp:495-528 | an inline routine starts with the inputs it was given and a default in every output, and with nothing else |
| `Statements.InlineReturnsOutputs` | dsl/src/AutotunerEngine.cpp:530-545 | it returns what its body left in its outputs, in order |
| `Statements.ForeignFunctionReceives` | dsl/src/AutotunerEngine.cpp:703-724 | a foreign function gets the parameters of the call, and its results and heap are those of the call |
| `Names.StructOfName` | dsl/include/falcon-dsl/TypeRegistry.hpp:50-66 | an instance without a declaration of its own has that of its template, and the foreign methods of its template |
| `Names.RoutineOfName` | dsl/src/ExprEvaluator.cpp:640-700 | a struct's routine is its first one of the name |
| `Names.StateOfName` | dsl/src/Interpreter.cpp:192-201 | a state is the autotuner's first one of the name |
| `Semantics.Run` | dsl/src/Interpreter.cpp:22-104 | a run, nested or not, leaves all environments unchanged and returns one value per output |
| `HeapGrowth.EvalKeeps` | dsl/src/ExprEvaluator.cpp:197-227 | with foreign functions that keep to it, an expression only allocates and writes instance fields: no object goes away, changes its type or loses a field, no tuple changes, on return and on error |
| `HeapGrowth.ExecKeeps` | dsl/src/StmtExecutor.cpp:43-83 | the same for statements |
| `HeapGrowth.RunKeeps` | dsl/src/Interpreter.cpp:22-104 | the same for runs, nested or not |
| `HeapGrowth.IndexIsAlwaysGetIndexCall` | dsl/src/ExprEvaluator.cpp:742-827 | evaluating an index then cannot replace the routine, so indexing is the method call GetIndex without a condition |
| `Semantics.Initialize` | dsl/src/Interpreter.cpp:31-66 | after initialisation the variables are exactly the declared variables, inputs and outputs |
| `Runs.StatesSeeOnlyGlobals` | dsl/src/Interpreter.cpp:134-190 | at every state entry of every run the variables are exactly the declared ones and the caller's other maps are untouched |
| `Runs.RunReturnsTheOutputs` | dsl/src/Interpreter.cpp:55-104 | a returning run passed through a terminal state, and its results are the values of the declared outputs there, in order |
| `FuelIndependence.RunSettles` | dsl/src/Interpreter.cpp:22-104 | a run that ends under one bound ends identically under every larger bound |
| `FuelIndependence.EvalSettles` | dsl/src/ExprEvaluator.cpp:197-227 | the same for expressions |
| `FuelIndependence.EndedRunsAgree` | dsl/src/Interpreter.cpp:22-104 | two bounds under which a run ends give the same result, error, environments and heap |
| `Matching.MatchArguments` | dsl/src/ExprEvaluator.cpp:858-929 | the two passes with their marks compute the plan |
| `Matching.PlanIsMatching` | dsl/src/ExprEvaluator.cpp:858-929 | named arguments go to their parameters and the k-th positional one to the k-th parameter not named, required ones first |
| `Matching.MissingExactlyWhenPositionalsRunOut` | dsl/src/ExprEvaluator.cpp:858-893 | the missing-argument error occurs if and only if the required parameters not named outnumber the positional arguments |
| `Matching.MatchingIsOneToOne` | dsl/src/ExprEvaluator.cpp:858-929 | with distinct parameter names a successful matching serves every parameter once and uses no argument twice |
| `Matching.PlanServesTheSignature` | dsl/src/ExprEvaluator.cpp:858-929 | a successful matching serves exactly the signature's names |
| `Calls.CallPassesTheSignature` | dsl/src/ExprEvaluator.cpp:858-929 | the function receives exactly the signature's parameters, each with its argument's value evaluated in matching order, or nil |
| `Calls.BindingsNeedArguments` | dsl/src/ExprEvaluator.cpp:858-929 | a call with a missing required argument never reaches its function |
| `TypeNames.BuildInstanceName` | dsl/compiler/include/falcon-atc/AST.hpp:122-136 | the loop prints the base and the arguments between brackets and commas |
| `TypeNames.PrintedForms` | dsl/compiler/include/falcon-atc/AST.hpp:122-192 | how types are printed |
| `TypeNames.PrefixDeterminesType` | dsl/compiler/include/falcon-atc/AST.hpp:163-192 | a printed type followed by a delimiter or the end is read back in one way only |
| `TypeNames.PrintingIsInjective` | dsl/compiler/include/falcon-atc/AST.hpp:122-192 | two well-formed types have the same printed name if and only if they are the same |
| `Monomorphize.TypeRegistry.RegisterStruct` | dsl/include/falcon-dsl/TypeRegistry.hpp:42-47 | the bare and the qualified key get the declaration, and cached instances stay right |
| `Monomorphize.TypeRegistry.LookupStruct` | dsl/include/falcon-dsl/TypeRegistry.hpp:50-66 | an exact key wins, and an instance name falls back to its template |
| `Monomorphize.TypeRegistry.Monomorphize` | dsl/src/ExprEvaluator.cpp:48-177 | a hit and a miss both return exactly the declaration that substitution builds for these arguments |
| `Instances.InstanceHasTheShape` | dsl/src/ExprEvaluator.cpp:78-172 | an instance has the template's fields and routines, in number, order, names, initialisers and bodies, and no parameter defaults |
| `Instances.FieldsAndInputsBecome` | dsl/src/ExprEvaluator.cpp:80-103 | a field or input written as parameter k has argument k for its type, an array of it an array, and every other type stays |
| `Instances.FieldsAndInputsAsMeant` | dsl/src/ExprEvaluator.cpp:80-103 | a field or input has the meant type if and only if no changing parameter occurs inside brackets |
| `Instances.OutputsAsMeant` | dsl/src/ExprEvaluator.cpp:104-160 | an output has the meant type under the exact condition for outputs |
| `Instances.OwnTypeNamesInstance` | dsl/src/ExprEvaluator.cpp:104-160 | an output written as the struct itself, bare or applied to its parameters, names the instance |
| `Instances.FirstArgumentCounts` | dsl/src/ExprEvaluator.cpp:73-76 | a repeated parameter stands for its first argument |
| `Instances.BoxOfInt` | dsl/src/ExprEvaluator.cpp:78-92 | the field T of Box<int> is an int, and Array<T> an array of int |
| `Monomorphize.TypeRegistry.OriginIsUnique` | dsl/src/ExprEvaluator.cpp:61-64 | a cached key can only come from the same template and arguments |
| `Monomorphize.Split` | dsl/src/ExprEvaluator.cpp:127-139 | the character loop splits at commas |
| `Substitutions.PassIsTheLoop` | dsl/src/ExprEvaluator.cpp:121-153 | splitting, trimming, substituting and joining is one pass over the text |
| `Substitutions.TrimRemovesBlanks` | dsl/src/ExprEvaluator.cpp:143-146 | blanks around a token play no part |
| `Substitutions.RebuildGivesRebuilt` | dsl/src/ExprEvaluator.cpp:117-155 | the type that rebuilding gives, for any nesting of arguments |
| `Substitutions.RebuildIsExact` | dsl/src/ExprEvaluator.cpp:117-155 | it is the substituted type if and only if no changing parameter is the first, last or only argument of a nested type |
| `Substitutions.RebuildSubstitutesFlatArguments` | dsl/src/ExprEvaluator.cpp:117-155 | arguments without brackets are always rebuilt as the substituted type |
| `Substitutions.OutputIsExact` | dsl/src/ExprEvaluator.cpp:104-156 | for every output type, the exact condition under which it becomes the substituted type, or the instance for the bare struct |
| `Substitutions.SelfReferenceBecomesRegisteredName` | dsl/src/ExprEvaluator.cpp:104-160 | the struct applied to its own parameters becomes the registered key, whatever the concrete arguments contain |
| `Substitutions.SubstitutionIsExactOutsideBrackets` | dsl/src/ExprEvaluator.cpp:15-37 | a substituted field or input type is the meant one if and only if no changing parameter occurs inside the brackets of a generic type |
| `Substitutions.NestedParameterIsNotRebuilt` | dsl/src/ExprEvaluator.cpp:127-153 | the only argument of a nested type keeps its parameter |
| `Substitutions.MiddleParameterIsRebuilt` | dsl/src/ExprEvaluator.cpp:127-153 | the middle argument of a nested type does not |
| `GaussJordan.Invert` | demos/qarray-charge-tuning/qarray-wrapper.cpp:699-731 | a returned matrix is a left and a right inverse, and the loop returns if and only if the diagonal always holds a largest entry that reaches the threshold |
| `GaussJordan.ThresholdOfOneGate` | demos/qarray-charge-tuning/qarray-wrapper.cpp:702-718 | for one gate the matrix is inverted if and only if its entry is at least 10^-10 in size |
| `GaussJordan.EliminateColumn` | demos/qarray-charge-tuning/qarray-wrapper.cpp:719-730 | one column step, done in place on both matrices, keeps the solutions of the linear system |
| `GaussJordan.SameSolutionsMeansInverse` | demos/qarray-charge-tuning/qarray-wrapper.cpp:699-731 | a matrix describing the same solutions as the input is its two-sided inverse |
| `GaussJordan.CopyKeepsProgress` | demos/qarray-charge-tuning/qarray-wrapper.cpp:710-715 | executing the row assignments leaves a zero row below, which survives until the failure |
| `GaussJordan.EndStateStep` | demos/qarray-charge-tuning/qarray-wrapper.cpp:676-748 | the input times the step vector is twice the spacing in the chosen direction and 0 elsewhere, and each error has its exact condition |
| `GaussJordan.ExchangeOfTwoGatesIsRejected` | demos/qarray-charge-tuning/qarray-wrapper.cpp:710-718 | a matrix that is its own inverse for which the inversion fails |
| `Peaks.FindPeaks` | demos/qarray-charge-tuning/qarray-wrapper.cpp:428-447 | the scan reports exactly the qualifying samples whose left neighbour is not an equal qualifying one, in increasing order |
| `Peaks.DetectPeaks` | demos/qarray-charge-tuning/qarray-wrapper.cpp:407-449 | the same for the magnitudes and the threshold at their mean plus sigma times the root of their variance, both added up in loops, and none below three samples |
| `Peaks.PeakListIsSoundAndComplete` | demos/qarray-charge-tuning/qarray-wrapper.cpp:428-448 | every peak is above the threshold with no neighbour above it, every such sample lies in a flat run from a peak, no run holds two peaks |
| `Peaks.WhereARunIsReported` | demos/qarray-charge-tuning/qarray-wrapper.cpp:428-448 | which sample of a run of equal values is the reported one |
| `Peaks.ShelfIsReportedLate` | demos/qarray-charge-tuning/qarray-wrapper.cpp:439-441 | at two deviations, a signal of 24 samples with a falling shelf of which the second sample is reported |
| `Peaks.ThresholdBoundsDetections` | demos/qarray-charge-tuning/qarray-wrapper.cpp:417-427 | (1 + sigma^2) times the number of samples above the threshold is less than the number of samples |
| `Peaks.DefaultThresholdBound` | demos/qarray-charge-tuning/qarray-wrapper.cpp:405-449 | with two deviations, fewer than one sample in five is a peak, and a constant signal has none |
| `Peaks.PeakVoltageIsInside` | demos/qarray-charge-tuning/qarray-wrapper.cpp:583-596 | the divisor is not zero and the voltage of a peak lies strictly between differing end points |
| `Peaks.VoltagesAreEvenlySpread` | demos/qarray-charge-tuning/qarray-wrapper.cpp:583-596 | the samples are spread evenly from the start to the end of the ray |
| `Peaks.LaterPeaksAreFurther` | demos/qarray-charge-tuning/qarray-wrapper.cpp:583-596 | later peaks lie strictly further along a rising ray |
| `Peaks.Locate` | demos/qarray-charge-tuning/qarray-wrapper.cpp:583-601 | one location for every peak with the voltage of every gate, in order |
| `ImportResolver.ImportResolver.ResolveDocument` | dsl/lsp/src/ImportResolver.cpp:102-113 | it ends on cyclic imports too, parses each other file at most once, appends exactly the visible symbols of the parsed files and gains their names, marks every import that leads to a readable file, and from a fresh resolver under the naming discipline parses exactly the reachable files |
| `ImportResolver.ImportResolver.ResolveImpl` | dsl/lsp/src/ImportResolver.cpp:119-181 | what the depth-first walk adds to the visited files, the marks, the symbols and the names |
| `ImportResolver.ImportResolver.Merge` | dsl/lsp/src/ImportResolver.cpp:155-165 | the symbols of the five visible kinds are appended, in order, with name and kind kept and the mark set, and no others; exactly their names are gained |
| `ImportResolver.ExportsOfAllAreExports` | dsl/lsp/src/ImportResolver.cpp:155-165 | what was merged in is exported again unchanged, so exports travel along any chain |
| `ImportResolver.ClosedContainsChain` | dsl/lsp/src/ImportResolver.cpp:119-181 | a closed set of visited files contains everything reachable |
| `Loader.AutotunerEngine.LoadFalFile` | dsl/src/AutotunerEngine.cpp:54-178 | loaded programs are in dependency order; a file is parsed with all it imports registered and their structs in the hints; nothing loaded is loaded again through an import; a load ends if no cycle can be reached, and if everything it reaches can be loaded it ends if and only if no cycle can |
| `Loader.AcyclicWalksAreShort` | dsl/src/AutotunerEngine.cpp:79-106 | without a cycle in reach the recursion is no deeper than there are files |
| `Loader.AutotunerEngine.LoadOneImport` | dsl/src/AutotunerEngine.cpp:86-104 | a loaded import is not loaded again, and its struct names reach the hints in both cases |
| `Loader.AutotunerEngine.FinishFile` | dsl/src/AutotunerEngine.cpp:108-173 | it succeeds if and only if every foreign type has a hint and the foreign code builds, and then appends the file; what each registry gains is stated for all outcomes |
| `Loader.HintsForEachStruct` | dsl/src/AutotunerEngine.cpp:99-103 | a struct of an import is a hint with and without the module's name |
| `Loader.HintsForNothingElse` | dsl/src/AutotunerEngine.cpp:99-103 | and nothing else is |
| `Loader.LoadedIsClosedAndAcyclic` | dsl/src/AutotunerEngine.cpp:79-106 | everything a loaded file imports, directly or not, is loaded, and no cycle is reachable from it |
| `PackageCache.LookupIsFreshAfterEveryHistory` | dsl/package-manager/src/PackageCache.cpp:59-171 | over every interleaving of operations, source changes, restarts and crashes, lookup is right at every point and after any further changes if and only if no store was harmful: copied other content than it hashed and left that copy in use |
| `PackageCache.HistoryIsSound` | dsl/package-manager/src/PackageCache.cpp:59-171 | without a harmful store, every copy in use keeps the content of its name through every history |
| `PackageCache.FreshExactlyWhenSound` | dsl/package-manager/src/PackageCache.cpp:103-123 | lookup is right whatever changes next if and only if every copy in use has the content of its name |
| `PackageCache.StoreIsSound` | dsl/package-manager/src/PackageCache.cpp:125-139 | a store, complete or cut short, keeps the copies in use right if and only if it is not harmful |
| `PackageCache.StoreMayCopyOtherContent` | dsl/package-manager/src/PackageCache.cpp:128-134 | the race between the two reads of the source, after which lookup returns other content |
| `PackageCache.StoreCommutesAfterCopy` | dsl/package-manager/src/PackageCache.cpp:133-138 | source changes between the later steps of a store are as changes after it |
| `PackageCache.InvalidateCommutes` | dsl/package-manager/src/PackageCache.cpp:141-161 | so are those between the steps of an invalidate |
| `PackageCache.ClearCommutes` | dsl/package-manager/src/PackageCache.cpp:163-171 | so are those between the steps of a clear |
| `PackageCache.ReopenCommutes` | dsl/package-manager/src/PackageCache.cpp:59-78 | so are those before a restart or after a crash |
| `PackageCache.LookupTrustsTheCopy` | dsl/package-manager/src/PackageCache.cpp:103-123 | lookup is right if and only if the copy still has the content of its name |
| `PackageCache.InvalidateKeepsOthers` | dsl/package-manager/src/PackageCache.cpp:141-161 | at no point does invalidating one source change what lookup finds for another, although they may share a copy |
| `PackageCache.InvalidateForgets` | dsl/package-manager/src/PackageCache.cpp:141-161 | afterwards lookup finds nothing for the source |
| `PackageCache.InvalidateRemovesUnused` | dsl/package-manager/src/PackageCache.cpp:141-161 | the copy is removed if and only if no other source uses it, and nothing else is |
| `PackageCache.ClearRemovesAll` | dsl/package-manager/src/PackageCache.cpp:163-171 | no entry, no index file and none of the copies in use are left, and other copies are |
| `PackageCache.StoreFindsAndKeeps` | dsl/package-manager/src/PackageCache.cpp:125-139 | a completed store is found if and only if it copied what it hashed, and others keep what they had or regain a missing shared copy |
| `PackageCache.ReopenAfterCompletion` | dsl/package-manager/src/PackageCache.cpp:59-91 | after a completed store, invalidate or clear a new cache object reads back the same index |
| `PackageCache.PackageCache.LookupCopy` | dsl/package-manager/src/PackageCache.cpp:103-123 | the method looks up as specified |
| `PackageCache.PackageCache.StoreSource` | dsl/package-manager/src/PackageCache.cpp:125-139 | the method, reading the source twice, takes the specified step for any changes in between and any number of file operations before it dies |
| `PackageCache.PackageCache.InvalidateSource` | dsl/package-manager/src/PackageCache.cpp:141-161 | the same, with the loop that looks for other references |
| `PackageCache.PackageCache.ClearCache` | dsl/package-manager/src/PackageCache.cpp:163-171 | the same, for any order of the entries |
| `GrowArray.GrowArray.Grow` | dsl/treesitter/src/tree_sitter/array.h:242-253 | the elements stay and there is room for count more, also when doubling wraps |
| `GrowArray.DoublingWrapsAtHalf` | dsl/treesitter/src/tree_sitter/array.h:245-250 | from 2^31 elements on, growing a full array adds room for one element |
| `GrowArray.PushesMoveLinearly` | dsl/treesitter/src/tree_sitter/array.h:242-253 | m pushes onto an empty array move at most 2 m elements if and only if m <= 2^31 + 1, for every m below 2^32 |
| `GrowArray.FirstPushBeyondTheBound` | dsl/treesitter/src/tree_sitter/array.h:242-253 | push 2^31 + 2 brings the moves to 3 * 2^31 - 7, beyond the bound |
| `GrowArray.GrowArray.Push` | dsl/treesitter/src/tree_sitter/array.h:72-79 | appends, and keeps the exact count of moves of an array built by pushes |
| `GrowArray.GrowArray.Splice` | dsl/treesitter/src/tree_sitter/array.h:256-297 | prefix, new elements, suffix |
| `GrowArray.MovesMakeASplice` | dsl/treesitter/src/tree_sitter/array.h:268-292 | moving the tail first is right whichever of the two counts is larger |
| `GrowArray.GrowArray.Erase` | dsl/treesitter/src/tree_sitter/array.h:197-204 | prefix and suffix without the element |
| `GrowArray.SearchSorted` | dsl/treesitter/src/tree_sitter/array.h:297-314 | in any ascending array, the halving search finds the needle exactly if it is there, and then the last one, else the only position that keeps the order |
| `GrowArray.WrapIsRemainder` | dsl/treesitter/src/tree_sitter/array.h:245-249 | 32-bit sizes and capacities are remainders modulo 2^32 |
| `GrowArray.InsertSorted` | dsl/treesitter/src/tree_sitter/array.h:169-174 | the array stays sorted without duplicates and gains the value |
| `ReplaceAll.ReplaceInPlace` | libs/strings/strings-wrapper.cpp:163-177 | the edit loop ends, also when the new text contains the pattern, with the leftmost non-overlapping replacement, and the length changes by the same amount per match |
| `ReplaceAll.ReplacementJoinsThePieces` | libs/strings/strings-wrapper.cpp:163-177 | text and result are the same pieces joined by the pattern and by the new text, one match between any two pieces |
| `ReplaceAll.PiecesAreLeftmost` | libs/strings/strings-wrapper.cpp:170-173 | in these pieces every first match is at a border |
| `ReplaceAll.LeftmostPiecesAreUnique` | libs/strings/strings-wrapper.cpp:170-173 | only one list of pieces is like that, so the result does not depend on how it is searched |

## Left out

- Rounding, infinities, NaN and 64-bit integer overflow: numbers are unbounded integers and reals. The library's square root is a function parameter; the bounds on detections take it as the non-negative root of the variance.
- Generic instantiation inside the interpreter: its table of structs is fixed, and the registry has a module of its own. Re-registering a name is not modelled.
- The legacy array value and its indexing; arrays are struct instances.
- The texts of error messages, source positions and logging; errors are kinds.
- Foreign code: compiling it, loading it, and packing its arguments. A foreign function is any function of a receiver, parameters and heap.
- A program that ends neither under any bound nor in an error: nothing is claimed about it beyond not returning.
- Flattening.FlatteningPreservesMeaning: bodies with calls are outside, since a callee may change the receiver's fields behind the copies.
- TypeNames.PrintingIsInjective: tuple, union and `Array` types are outside, because their printed forms can coincide with one another or with struct names.
- ImportResolver.ImportResolver.ResolveDocument: completeness needs a fresh resolver and one readable file per import string, since marks are kept by string and across calls; soundness needs neither.
- PackageCache.LookupIsFreshAfterEveryHistory: SHA-256 is an injective function, and copying one file is one step, so a copy that a crash leaves half-written, or that mixes two contents, is not modelled; sources lie outside the cache directory.
- PackageCache.ReopenAfterCompletion: the index file holds the index itself, so writing and parsing its JSON text play no part.
- Divergence.AssigningPairDiverges: about the syntax tree and the executor; `compiler/src/parser.y` has only names as assignment targets, and the generated `parser.tab.cc` of an earlier grammar allows fields.
- Path canonicalisation, environment lookups and package manifests: import strings lead to files by a given table.
- GrowArray.SearchSorted: the comparison is that of integers without the overflow of a difference; elements are of any one type and their size in bytes plays no part.
- LSP features other than import resolution, messaging, databases, snapshots, plotting and the generated parser tables.
