# Ethos and the context-dependent map, verified

Ethos is a proof checker. It evaluates side-condition programs on terms, works on n-ary lists that
are nested applications, and runs a small machine of proof commands over a scoped symbol table and a
stack of assumptions. Below that lies a database of shared terms. cvc5 adds a hash map whose contents
follow the scopes of a context. This project models these parts in Dafny and proves what they promise.

Terms are values (`Terms.dfy`). The source compares terms by address; `HashConsing.dfy` proves that two
objects of the term table are the same object exactly when their terms are equal, so an address
comparison is an equality of values. The objects themselves, with their flags, are modelled in the heap.

| file | content |
|---|---|
| `Terms.dfy` | terms, groundness, evaluatability, substitution |
| `Matching.dfy` | one-sided matching: meaning, recursion, worklist, the arguments of an application |
| `ListSpecs.dfy`, `ListLaws.dfy`, `ListOps.dfy` | list operators on sequences; what each returns, element by element; the loops that share unchanged tails |
| `Evaluation.dfy`, `EvaluationLaws.dfy` | the recursive call-by-value evaluator, with fuel, where `Evaluates` means some fuel suffices; which case a call selects and what each operator gives |
| `EvalMachine.dfy`, `EvalCompleteness.dfy`, `Evaluator.dfy` | the evaluation machine as a step function, its equivalence with the recursive evaluator, and the nested loops |
| `ProgramApps.dfy` | running a program on given arguments, compared with evaluating its application |
| `Programs.dfy`, `RoundTrip.dfy` | variables and program well-formedness; closedness of runs; match, then evaluate |
| `Desugaring.dfy` | applications of associative operators with list-marked parameters |
| `Symbols.dfy` | the symbol table with scopes and overloads |
| `Proofs.dfy`, `ProofChecker.dfy` | entailment, the proof-command machine, soundness of runs; the checker state updated in place |
| `TermDatabase.dfy`, `HashConsing.dfy`, `ExprTries.dfy` | flags computed in place; the shared-term table over one trie for each kind; the trie with removal |
| `LetPrinting.dfy`, `LetText.dfy`, `LetReading.dfy` | printing with named subterms; what the text looks like; that it determines the term |
| `StringLiterals.dfy` | the buffered lexer and string literals |
| `ContextMap.dfy` | the context-dependent hash map and its circular list |

## What the proofs found

Seven properties hold only under a condition. The code is modelled as it is, and the condition is proved
exact, or shown to be needed by a counterexample. One comment of the source is backwards.

- *Match, then evaluate.* Evaluating a matched pattern gives the matched term back, under every program
  table, exactly when no application of the pattern gets a program as head and values as arguments
  (`RoundTrip.MatchThenEvaluate`, `RoundTrip.SubstExactly`; for patterns without literal operators, which
  covers every pattern without pending evaluation). It always does when the matched term has no
  pending evaluation, which is what program calls ensure. `RoundTrip.RoundTripFails` is the counterexample.
- *Printing with names.* A subterm that is printed once and used again is called `_v0`, `_v1` and so on, and
  `_v0` is also a legal symbol that is printed without quotes (`LetPrinting.QuotedAsRef`). Replacing every
  name by its definition gives the plain text back exactly if no leaf with the spelling of a name is printed
  where that name is defined (`LetPrinting.LetPrintFaithfulIff`). `LetPrinting.SameTextForTwoTerms`: with a
  symbol `_v0`, `(f (g a) (g a) _v0)` and `(f (g a) (g a) (g a))` have one text. If no leaf is taken for a name,
  the text determines the term (`LetReading.PrintedOnce`), except that an opaque application is printed like
  an ordinary one, or like `as` (`LetReading.WordsSameIff`, `LetReading.PrintedReads`).
- *Closed runs.* An if-then-else with a wrong number of arguments is returned unevaluated, so a parameter in
  it gets out (`Programs.MalformedIteEscapes`). Over every accepted table a result is ground exactly if
  evaluation reaches no such term, through the branches that it chooses and the bodies of the cases that it
  selects (`Programs.EvalGroundIff`). So it is ground if no body has such a term (`Programs.EvalClosed`). A
  branch that is not chosen is why the converse depends on the evaluation. Where no branch is chosen the
  condition can be read off the term (`Programs.EvalClosedIff`), for a call on values off the selected body
  (`ProgramApps.CallGroundIff`).
- *Step-pop.* It discharges the first assumption of its scope only. That is sound for every class of
  models and every sound step exactly when the other assumptions of the scope are also assumed outside
  or repeat the first (`ProofSemantics.PopSoundIffCovered`). The parser comment says a plain `assume` is
  expected at level zero, and the code does not check it; `ProofMachine.NestedAssumeUnsound` is an
  accepted run with a sound rule that proves a formula nothing entails.
- *Running a program.* `evaluateProgramApp` evaluates the selected body; `evaluate` leaves a body that is
  ground, or matched without bindings, as it is. The two agree whenever such a body has no evaluation pending,
  which can be tested before the call (`ProgramApps.AppIsCall`); in `ProgramApps.ShortCutStops`, a table of
  two programs, they differ. With an evaluation pending they agree exactly if the body is its own value
  (`ProgramApps.AppIsCallIff`). Over all tables with the same called program they agree exactly if the body
  has no callable application in it (`ProgramApps.AppAgreesExactly`; without literal operators, and without
  the called program itself, which may return to its own body).
- *Trie removal.* `ExprTrie::remove` erases a chain of only children without looking for data on it. It
  deletes exactly its key if and only if the last node has a sibling, or no other stored key extends the key
  or is a prefix of it below the last branching (`ExprTries.RemovalExactIff`); prefix-free keys suffice.
  `ExprTries.RemovalLosesPrefix` loses `[a]` with `[a, b]`.
- *String literals.* In the C locale, where no byte above 127 is printable, the round trip holds exactly for
  characters 1 to 127 with no quote after the literal (`StringLiterals.LiteralRoundTrip`). A zero character ends the token text early, and in a buffered file the
  byte 255 reads as the end of the file, because a buffered character is a signed char (as on x86-64).
- *Comment.* The comment at `ethos/src/type_checker.h:72-73` says that the substitution applied to `b` gives
  `a`. The code binds the parameters of `a`, so applied to `a` it gives `b`; the proofs follow the code.

## Model

| member | source | states |
|---|---|---|
| Terms.GroundIff | ethos/src/expr.cpp:110-114 | groundness is the absence of parameters and `eo::?` |
| Terms.OccursIff | ethos/src/expr.cpp:435-467 | the parameters of a term are those among its subterms, and so is `eo::?` |
| Terms.EvaluatableIff | ethos/src/expr.cpp:90-99 | evaluation is pending exactly if a subterm is a program constant, `eo::?` or a literal operator applied to something |
| Matching.MatchesIsSubst | ethos/src/type_checker.h:70-75 | a match is a substitution: it exists on a pattern without `eo::?` whose parameters are bound, and the instance is the term |
| Matching.MatchRecIsLeast | ethos/src/type_checker.cpp:442-533 | matching is sound, complete and minimal for every pattern and term: it fails exactly when no extension of the context matches, and binds exactly the parameters of the pattern |
| Matching.MatchRecAllIsLeast | ethos/src/type_checker.cpp:376-385 | threading one context through a sequence of pairs is matching the tuple; `Matching.MatchApp` adds the cache |
| Matching.LeastMatchUnique | ethos/src/type_checker.cpp:442-533 | only one answer is least, so the order of the work does not matter |
| Matching.MatchPairs | ethos/src/type_checker.cpp:448-533 | the worklist with a cache of visited pairs returns the least match; the cache stays true of the returned context, so it can be passed on |
| Matching.Match | ethos/src/type_checker.cpp:442-446 | with an empty cache the worklist agrees with the recursion |
| Matching.MatchArguments | ethos/src/type_checker.cpp:376-425 | the loop over the arguments, with one context and one cache of visited pairs for all of them |
| Matching.MatchApp | ethos/src/type_checker.cpp:345-437 | an application is accepted exactly if some context makes each quoted argument type into an argument of the same type, and each other argument type into the type of the argument, and then returns the least such context; the head must have a function or program type of that arity |
| ListSpecs.ElementsIff | ethos/src/type_checker.cpp:1019-1045 | a term is a list of `xs` exactly when it is the one built from `xs` over nil, in both orientations |
| ListLaws.ListShape | ethos/src/type_checker.cpp:1019-1045 | `(f x (f y nil))` and `(f (f nil y) x)` are the lists of `x, y`, outermost first; nothing but such applications and nil is a list |
| ListSpecs.ElementsNone | ethos/src/type_checker.cpp:1026-1043 | the walk strips every application of the operator, so a nil that is one would end no list; `HashConsing.TermTable.NilIsNoApplication` excludes it |
| ListSpecs.BeyondIsDifference | ethos/src/type_checker.cpp:1699-1758 | what diff keeps is the multiset difference |
| ListSpecs.WithinIsIntersection | ethos/src/type_checker.cpp:1699-1758 | what inter keeps is the multiset intersection |
| ListSpecs.DiffInterPartition | ethos/src/type_checker.cpp:1699-1758 | difference and intersection share out the elements of the first list |
| ListSpecs.DiffEmptyIff | ethos/src/type_checker.cpp:1699-1758 | the difference is empty exactly under multiset inclusion |
| ListSpecs.DropFirstCount | ethos/src/type_checker.cpp:1571-1614 | erase takes one occurrence away, if there is one |
| ListSpecs.DropEveryCount | ethos/src/type_checker.cpp:1571-1614 | erase-all leaves no occurrence and every other element as often as before |
| ListSpecs.FirstOccurrencesOnce | ethos/src/type_checker.cpp:1616-1653 | setof keeps each element exactly once |
| ListSpecs.KeepPositions | ethos/src/type_checker.cpp:1571-1758 | every filtering operator keeps the order of the elements |
| ListSpecs.KeptIff | ethos/src/type_checker.cpp:1571-1758 | the positions kept are exactly those that pass the operator's test on what came before |
| ListSpecs.MincludeIffDiffNil | ethos/src/type_checker.cpp:1655-1758 | minclude(a, b) is true exactly when diff(a, b) is nil |
| ListSpecs.MeqIffMincludeBoth | ethos/src/type_checker.cpp:1655-1697 | meq is minclude both ways |
| ListSpecs.DiffInterElements | ethos/src/type_checker.cpp:1699-1758 | diff and inter return lists whose elements are the multiset difference and intersection and add up to the first list |
| ListSpecs.RevRev | ethos/src/type_checker.cpp:1556-1569 | reversing a list twice gives it back |
| ListLaws.RevLaw | ethos/src/type_checker.cpp:1556-1569 | list_rev: the elements in the opposite order |
| ListLaws.SetOfLaw | ethos/src/type_checker.cpp:1616-1653 | list_setof: exactly the elements that did not occur before, in order |
| ListLaws.EraseLaw | ethos/src/type_checker.cpp:1571-1614 | list_erase: the list without the first occurrence, or as it was |
| ListLaws.EraseAllLaw | ethos/src/type_checker.cpp:1571-1614 | list_erase_all: exactly the other elements, in order |
| ListLaws.DiffInterLaw | ethos/src/type_checker.cpp:1699-1758 | list_inter: the elements that the second list has more often than they came before; list_diff: the others; both in order |
| ListLaws.CompareLaw | ethos/src/type_checker.cpp:1655-1697 | list_minclude and list_meq compare the number of occurrences of every term |
| ListLaws.NthLaw | ethos/src/type_checker.cpp:1479-1500 | list_nth: the element at a position that fits into 32 bits; stuck otherwise |
| ListLaws.FindLaw | ethos/src/type_checker.cpp:1501-1523 | list_find: the first position, or minus one |
| ListLaws.ReadLaw | ethos/src/type_checker.cpp:1467-1549 | list_len, list_singleton_elim and nil |
| ListLaws.ConsLaw | ethos/src/type_checker.cpp:1431-1464 | cons adds an outermost element |
| ListLaws.ConcatLaw | ethos/src/type_checker.cpp:1431-1464 | list_concat writes the first list before the second one, in both orientations |
| ListLaws.StuckLaw | ethos/src/type_checker.cpp:1429-1758 | every operator but nil is stuck on a term that is no list |
| ListOps.GetNAryChildren | ethos/src/type_checker.cpp:1019-1045 | the walk collects the elements outermost first, and fails exactly when it does not end in the demanded terminator |
| ListOps.IsNAryList | ethos/src/type_checker.cpp:1050-1064 | true exactly for terms whose walk ends in nil |
| ListOps.GetNAryNthTail | ethos/src/type_checker.cpp:1070-1079 | the n-th tail is the list of the elements from position n on |
| ListOps.PrependNAryChildren | ethos/src/type_checker.cpp:1081-1106 | the loop builds the list of the elements over the tail, in either orientation |
| ListOps.ShareTail | ethos/src/type_checker.cpp:1643-1652 | sharing the tail after the last change gives the list rebuilt from what the filter keeps |
| ListOps.EraseLoop | ethos/src/type_checker.cpp:1582-1600 | the loop tracks the kept elements and the last change, or finds the first occurrence |
| ListOps.EvaluateListErase | ethos/src/type_checker.cpp:1571-1614 | erase and erase-all with shared tails return the list without the first, or without any, occurrence; stuck on non-lists |
| ListOps.SetOfLoop | ethos/src/type_checker.cpp:1626-1642 | the loop keeps first occurrences and the last change point |
| ListOps.EvaluateListSetOf | ethos/src/type_checker.cpp:1616-1653 | setof with a shared tail is the list of first occurrences |
| ListOps.OneDirectionEnough | ethos/src/type_checker.cpp:1681-1696 | with equally many distinct keys, agreement on the keys of one table is equality of the multisets |
| ListOps.CompareCounts | ethos/src/type_checker.cpp:1681-1696 | one pass over the keys of the first table decides equality, respectively inclusion |
| ListOps.EvaluateListMPred | ethos/src/type_checker.cpp:1655-1697 | minclude and meq decide multiset inclusion and equality |
| ListOps.DiffInterLoop | ethos/src/type_checker.cpp:1727-1746 | the counter loop keeps exactly the elements of the difference, respectively intersection |
| ListOps.EvaluateListDiffInter | ethos/src/type_checker.cpp:1699-1758 | diff and inter, with the fast path for equal arguments and shared tails, return the specified list |
| ListOps.EvaluateListConcat | ethos/src/type_checker.cpp:1431-1464 | cons and concatenation: the list of both element sequences, with the fast path for a nil tail |
| ListOps.EvaluateListRev | ethos/src/type_checker.cpp:1556-1569 | the reversed list |
| ListOps.EvaluateListFind | ethos/src/type_checker.cpp:1501-1523 | the position of the first occurrence, or minus one |
| ListOps.EvaluateListRead | ethos/src/type_checker.cpp:1467-1549 | length, n-th element and singleton elimination; stuck on non-lists and bad indices |
| ListOps.EvaluateListOp | ethos/src/type_checker.cpp:1429-1554 | every list operator returns its value on sequences, in both orientations |
| Evaluation.EvalMono | ethos/src/type_checker.cpp:558-851 | more fuel does not change a value |
| Evaluation.EvaluatesUnique | ethos/src/type_checker.cpp:558-851 | a term has at most one value |
| EvaluationRules.EvLeaf | ethos/src/type_checker.cpp:592-616 | terms that stay, parameters, and malformed if-then-else |
| EvaluationRules.EvIteBool | ethos/src/type_checker.cpp:730-751 | an if-then-else on a Boolean has the value of one branch, whether or not the other one terminates |
| EvaluationRules.EvIteStuck | ethos/src/type_checker.cpp:752-767 | a stuck if-then-else is rebuilt over its evaluated children |
| EvaluationRules.EvNode | ethos/src/type_checker.cpp:682-800 | the value of any other term: that of its reduced, evaluated children |
| EvaluationLaws.SelectCaseIff | ethos/src/type_checker.cpp:884-962 | exactly the first case that matches is selected, with its least match: the cases before it have the right arity and match in no context; and exactly when no case is |
| EvaluationLaws.EvCall | ethos/src/type_checker.cpp:682-728 | a call has the value of the body of its first matching case; a ground body, or one matched without bindings, is the value itself |
| EvaluationLaws.EvCallStuck | ethos/src/type_checker.cpp:682-728 | a call that finds no case stays, with its children evaluated |
| EvaluationLaws.EvRebuilt | ethos/src/type_checker.cpp:785-800 | any other application is rebuilt over its evaluated children |
| EvaluationLaws.EvEq | ethos/src/type_checker.cpp:1184-1194 | eo::eq is true exactly on equal terms, if both are ground and no evaluation is pending in them; otherwise it is stuck |
| EvaluationLaws.EvIsEq | ethos/src/type_checker.cpp:1169-1183 | eo::is_eq is true exactly on equal terms without pending evaluation, and false on all other ground terms |
| EvaluationLaws.EvIsOk | ethos/src/type_checker.cpp:1161-1168 | eo::is_ok is true exactly if no evaluation is pending in a ground term |
| EvaluationLaws.EvRequires | ethos/src/type_checker.cpp:1129-1150 | eo::requires is its third argument, ground or not, if the first two are one value; otherwise it is stuck |
| EvaluationLaws.EvList | ethos/src/type_checker.cpp:1429-1758 | a list operator on ground arguments, not all literals, has the value that the list laws give |
| EvaluationLaws.EvPrim | ethos/src/type_checker.cpp:1108-1196 | the unmodelled operators evaluate only on ground arguments |
| EvaluationLaws.BuiltIsEvaluated | ethos/src/type_checker.cpp:1108-1196 | on values, applying a literal operator when the term is built and evaluating the application give the same |
| EvalSoundness.StackPush | ethos/src/type_checker.cpp:639-656 | pushing children keeps the discipline of the visit stack: above an open term only smaller terms, and each first child recorded or waiting |
| EvalSoundness.CombineIteOk | ethos/src/type_checker.cpp:730-768 | the lazy if-then-else keeps all recorded results true |
| EvalSoundness.CombineCallOk | ethos/src/type_checker.cpp:682-728 | a program call, cached or not, keeps the call table true, and a pushed frame evaluates the selected body |
| EvalSoundness.PopOk | ethos/src/type_checker.cpp:816-844 | popping a frame records a true result in the call table and in the frame below |
| EvalSoundness.StepOk | ethos/src/type_checker.cpp:580-849 | every step keeps the invariant of the machine |
| EvalSoundness.ReachableOk | ethos/src/type_checker.cpp:558-851 | in every reachable state each recorded result and each entry of the call table, also a stuck one, is the true result |
| EvalCompleteness.Simulate | ethos/src/type_checker.cpp:558-851 | whenever the recursive evaluator has a value, the machine comes back to the frame with that value recorded |
| EvalCompleteness.Reaches | ethos/src/type_checker.cpp:558-851 | the machine then halts with the value |
| EvalCompleteness.MachineIsEval | ethos/src/type_checker.cpp:558-851 | for every term, context and program table the machine halts with a value if and only if recursive evaluation terminates with it |
| Evaluator.EvaluateProgramInternal | ethos/src/type_checker.cpp:884-962 | the loop over the cases selects the first matching case, as `EvaluationLaws.SelectCaseIff` says |
| Evaluator.MatchChildren | ethos/src/type_checker.cpp:938-946 | matching the arguments of a case left to right agrees with the recursion |
| Evaluator.EvaluateLiteralOpInternal | ethos/src/type_checker.cpp:1108-1554 | the branches for if-then-else, requires, equality tests and list operators return the specified value of evaluated arguments |
| Evaluator.CollectChildren | ethos/src/type_checker.cpp:660-678 | the evaluated children, with a mark for those not visited, and whether one changed |
| Evaluator.CombineIteTop | ethos/src/type_checker.cpp:730-768 | one visit of an if-then-else: its value, or the branches it waits for |
| Evaluator.VisitTop | ethos/src/type_checker.cpp:586-815 | the body of the inner loop is one step of the machine |
| Evaluator.FinishFrame | ethos/src/type_checker.cpp:816-844 | finishing a frame is the pop step of the machine |
| Evaluator.Evaluate | ethos/src/type_checker.cpp:558-851 | the nested loops return the value of the recursive evaluator, or nothing when cut off before the machine halts |
| ProgramApps.EvaluateProgramApp | ethos/src/type_checker.cpp:853-870 | returns the value of the selected body, as far as the machine gets in the given number of steps, or the application when no case is selected |
| ProgramApps.CallValue | ethos/src/type_checker.cpp:682-728 | evaluating a call on values has the value of the selected body, except that an immediate body is returned as it is |
| ProgramApps.AppIsCall | ethos/src/type_checker.cpp:853-870 | running a program and evaluating its application agree whenever the selected body depends on its parameters or has no evaluation pending |
| ProgramApps.AppIsCallIff | ethos/src/type_checker.cpp:713-725 | for the remaining bodies, which `evaluate` returns at once although an evaluation is pending in them, they agree exactly if the body is its own value |
| ProgramApps.AppAgreesExactly | ethos/src/type_checker.cpp:713-725 | over all tables with the same called program they agree exactly if the body is not returned at once or has no callable application in it |
| ProgramApps.ShortCutStops | ethos/src/type_checker.cpp:713-718 | two programs on which they differ |
| Programs.GetVariables | ethos/src/expr.cpp:435-467 | every parameter of the inputs exactly once, and nothing else, although ground subterms are pruned |
| Programs.HasVariable | ethos/src/expr.cpp:500-538 | true exactly when a parameter of the set occurs, although only the root is tested for being ground |
| Programs.FindFreeVar | ethos/src/expr_parser.cpp:1275-1291 | a parameter that is neither bound nor `eo::self`, or none exactly when there is none |
| Programs.TypeCheckProgramPair | ethos/src/expr_parser.cpp:1256-1273 | accepted exactly when the right side is bound by the left side, up to `eo::self`, and no argument of the left side is evaluatable |
| Programs.SelectedContext | ethos/src/type_checker.cpp:923-952 | the selected case binds exactly the parameters of its arguments, to ground values |
| Programs.SelectedBodyClosed | ethos/src/expr_parser.cpp:1256-1305 | the body of a selected, accepted case is closed by its context exactly when `eo::self` does not occur unbound |
| ProgramApps.SelectedRoundTrip | ethos/src/expr_parser.cpp:1256-1273 | the left side of a selected, accepted case, evaluated in the matched context, gives the arguments back under every table |
| Programs.EvalClosed | ethos/src/type_checker.cpp:558-962 | every terminating evaluation of a bound term over accepted programs gives a ground term, if neither the term nor a body has a malformed if-then-else with a parameter in it |
| Programs.EvalGroundIff | ethos/src/type_checker.cpp:639-844 | over all accepted programs, the result is ground exactly if no malformed if-then-else with a parameter in it is reached, through the chosen branches and the selected bodies |
| Programs.EvalClosedIff | ethos/src/type_checker.cpp:639-656 | without a choice of branches in the term, and with the bodies otherwise in order, the result is ground exactly if every malformed if-then-else in the term is |
| ProgramApps.CallGroundIff | ethos/src/type_checker.cpp:682-728 | a call on values whose selected body chooses no branch, over bodies that are otherwise in order, is ground exactly if every malformed if-then-else in that body is |
| Programs.MalformedIteEscapes | ethos/src/type_checker.cpp:640-648 | an accepted program whose body is such a term returns it, parameter included |
| RoundTrip.EvalIsSubst | ethos/src/type_checker.cpp:592-616 | a term without literal operators and callable applications evaluates, without program calls, to its plain substitution |
| RoundTrip.SubstExactly | ethos/src/type_checker.cpp:558-851 | for terms without literal operators, evaluation is substitution under every program table exactly when no application becomes callable |
| RoundTrip.MatchThenEvaluate | ethos/src/type_checker.cpp:448-616 | match then evaluate gives the matched term back under every table exactly under that condition, and always when the term is not evaluatable |
| RoundTrip.NoOpsIfNotEvaluatable | ethos/src/expr_parser.cpp:1256-1273 | the argument patterns of accepted programs, on which no evaluation is pending, are among these terms |
| RoundTrip.RoundTripFails | ethos/src/type_checker.cpp:682-728 | a pattern whose head is bound to a program runs the program |
| Desugaring.MkApplyAttr | ethos/src/state.cpp:990-1099 | the loop over the children, with its index moves and its counter, builds the specified term for all six attributes; the nil terminator for no arguments |
| Desugaring.ThreeArguments | ethos/src/state.cpp:1000-1085 | what each of the six attributes makes of three arguments, written out |
| Desugaring.OneArgument | ethos/src/state.cpp:1000-1085 | what each of them makes of one argument |
| Desugaring.MarkedArguments | ethos/src/state.cpp:1018-1066 | a list-marked argument at the nil end takes the place of nil, and anywhere else is concatenated |
| Desugaring.DesugarUnmarked | ethos/src/state.cpp:1013-1086 | without list-marked arguments: all of them in reading order over nil; only a single one is up for elimination |
| Desugaring.DesugarWraps | ethos/src/state.cpp:1073-1086 | a non-singleton operator is put under elimination exactly if fewer than two arguments are not list-marked |
| Desugaring.DesugarMeans | ethos/src/state.cpp:1002-1091 | evaluating the desugared application with real lists for the marked parameters gives the flat list of all elements in reading order, with singleton elimination for the non-singleton attributes |
| Desugaring.DesugarPlainMeans | ethos/src/state.cpp:1002-1091 | without nil the application is nested over the values, and marks change nothing |
| Desugaring.EvConcat | ethos/src/type_checker.cpp:1431-1464 | concatenation during evaluation concatenates the lists its arguments evaluate to |
| Desugaring.EvEagerElim | ethos/src/state.cpp:1073-1086 | singleton elimination performed at once agrees with eliminating after evaluation |
| Symbols.BindRepresents | ethos/src/state.cpp:1269-1298 | the four tables after a binding say what the longer list of bindings says |
| Symbols.UndoRepresents | ethos/src/state.cpp:232-260 | one turn of the undo loop removes exactly the last binding, recognised by the last overloaded name |
| Symbols.RepresentsUnique | ethos/src/state.h:349-362 | the tables are determined by the live bindings |
| Bindings.OfPositions | ethos/src/state.cpp:1269-1298 | the terms of a name are those of all its bindings, oldest first |
| Bindings.LatestIff | ethos/src/state.cpp:1343-1351 | the last of them is that of the binding after which there is no other |
| Symbols.SymbolTable.PushScope | ethos/src/state.cpp:212-219 | opens a scope and changes no binding |
| Symbols.SymbolTable.Bind | ethos/src/state.cpp:1250-1299 | the tables follow the new list of bindings; overloads keep all terms in order |
| Symbols.SymbolTable.PopScope | ethos/src/state.cpp:221-262 | undoes exactly the bindings of the innermost scope; fails without one |
| Symbols.SymbolTable.GetVar | ethos/src/state.cpp:1343-1351 | the term of the live binding of the name after which there is no other one |
| Symbols.BracketedRun | ethos/src/state.cpp:212-262 | a bracketed run inside a scope only adds to that scope |
| Symbols.ScopeRestores | ethos/src/state.cpp:212-262 | push, any bracketed run of bindings and overloads, and the matching pop give every table back as it was |
| ProofSemantics.PopEntails | ethos/src/state.cpp:1439-1451 | discharging the first assumption of a covered scope keeps entailment |
| ProofSemantics.PopSoundIffCovered | ethos/src/state.cpp:1443-1449 | a step-pop is sound for all models and sound steps exactly when its scope is covered |
| ProofSemantics.CheckStepIff | ethos/src/state.cpp:1407-1547 | a step concludes exactly what the rule's program returns on the arguments, the stated conclusion if demanded, the discharged assumption and the premises, in this order, if it is Boolean and the conclusion that the step states |
| ProofMachine.StepIff | ethos/src/cmd_parser.cpp:867-965 | exactly when a step or step-pop is accepted, from the latest bindings of its premises, and the whole state after it: the scope is dropped and only the conclusion is bound |
| ProofMachine.AssumeIff | ethos/src/cmd_parser.cpp:108-127 | exactly when an assumption is accepted, and the whole state after it |
| ProofMachine.DeclareIff | ethos/src/cmd_parser.cpp:131-289 | a declaration binds a term that is no proof |
| ProofMachine.AliasIff | ethos/src/cmd_parser.cpp:96-965 | an alias binds the latest term of another name |
| ProofMachine.RunIff | ethos/src/cmd_parser.cpp:96-965 | a run is accepted exactly if each command is, one after the other |
| ProofMachine.ExecSound | ethos/src/cmd_parser.cpp:108-965 | every accepted command keeps each visible proof entailed, now and by what was assumed before any scope it precedes |
| ProofMachine.RunSound | ethos/src/cmd_parser.cpp:96-965 | so does every accepted run whose step-pops close covered scopes |
| ProofMachine.SinglesCovered | ethos/src/cmd_parser.cpp:111-112 | with plain assume at level zero only, every step-pop closes a covered scope |
| ProofMachine.AcceptedRunsAreSound | ethos/src/cmd_parser.cpp:96-965 | with sound rules and plain assume at level zero only, every formula with a visible proof is entailed by the current assumptions |
| ProofMachine.NestedAssumeUnsound | ethos/src/cmd_parser.cpp:111-127 | a nested plain assume lets an accepted run prove what nothing entails |
| ProofMachine.SubproofTrace | ethos/src/cmd_parser.cpp:957-965 | step-pop discharges exactly the formula of the matching assume-push, and leaves only its conclusion, bound outside the scope |
| ProofMachine.TopAssumptionsReferenced | ethos/src/state.cpp:452-469 | with a reference, every assumption at level zero is a referenced assertion |
| ProofChecker.Checker.PushAssumptionScope | ethos/src/state.cpp:264-270 | opens a scope of the table and remembers the number of assumptions |
| ProofChecker.Checker.PopAssumptionScope | ethos/src/state.cpp:272-280 | drops the assumptions and the bindings of the scope |
| ProofChecker.Checker.AddAssumption | ethos/src/state.cpp:452-469 | adds an assumption; false exactly for an unreferenced one at level zero |
| ProofChecker.Checker.ParsePremises | ethos/src/cmd_parser.cpp:900-908 | the terms bound to the premises, or an error at an unbound one |
| ProofChecker.Checker.NotifyStep | ethos/src/state.cpp:1386-1571 | the conclusion of a step as `ProofSemantics.CheckStepIff` says, with the first assumption of the scope for a step-pop |
| ProofChecker.Checker.ParseStep | ethos/src/cmd_parser.cpp:867-965 | the state after a step or step-pop; the conclusion is bound after the scope is dropped |
| ProofChecker.Checker.ParseNextCommand | ethos/src/cmd_parser.cpp:96-965 | accepts a command, and changes the state, exactly as the machine on values |
| ProofChecker.Checker.ParseCommands | ethos/src/cmd_parser.cpp:96-965 | accepts a file, with the same final state, exactly as the machine |
| TermDatabase.TrueFlagsIff | ethos/src/expr.cpp:90-99 | the right flags of an inner object are its own contribution and the union of its children's |
| TermDatabase.VisitExpand | ethos/src/expr.cpp:76-86 | marking an object before its children are done keeps the invariant of the traversal |
| TermDatabase.VisitPop | ethos/src/expr.cpp:87-101 | an object leaves the stack with its true flags |
| TermDatabase.UnionFlags | ethos/src/expr.cpp:90-99 | the flag bits are the union over the children |
| TermDatabase.ComputeFlags | ethos/src/expr.cpp:52-103 | terminates on every shared, partly flagged term graph and leaves every computed flag right: evaluatable exactly with a program constant, `eo::?` or literal operator below, non-ground exactly with a parameter or `eo::?` |
| HashConsing.TermTable.SameObjectIffSameTerm | ethos/src/type_checker.cpp:465-474 | two objects are the same exactly when they unfold to the same term |
| HashConsing.TermTable.GetNode | ethos/src/state.cpp:1237-1242 | the trie node of a kind and children holds the object that was made for them, if there is one; asking creates nodes and stores nothing |
| HashConsing.TermTable.MkExprInternal | ethos/src/state.cpp:1233-1248 | over one heap trie for each kind: returns the object with that kind and children, an old one exactly if there was one |
| HashConsing.TermTable.MkLiteralInternal | ethos/src/state.cpp:922-988 | literals are shared by value |
| HashConsing.TermTable.MkSymbolInternal | ethos/src/state.cpp:604-627 | every call makes a new symbol, which occurs in no earlier object |
| HashConsing.TermTable.DeclareOperator | ethos/src/cmd_parser.cpp:131-289 | an operator's nil terminator is an object made before the operator |
| HashConsing.TermTable.NilIsNoApplication | ethos/src/cmd_parser.cpp:160-289 | in every reachable table no nil terminator is an application of its operator |
| ExprTries.CutIsLeast | ethos/src/expr_trie.h:46-60 | the deletion candidate is the start of the last chain of only children on the path |
| ExprTries.CutOffComparable | ethos/src/expr_trie.h:46-60 | what is cut off lies on the path of the key or below it |
| ExprTries.CutOffIff | ethos/src/expr_trie.h:46-65 | cut off are exactly the extensions of the key and its prefixes below the last branching, unless its node has a sibling |
| ExprTries.RemovalExactIff | ethos/src/expr_trie.h:39-67 | a removal changes no other lookup exactly when the node has a sibling or no other stored key is an extension or such a prefix |
| ExprTries.PrefixFreeRemovesOne | ethos/src/expr_trie.h:39-67 | on prefix-free keys a removal deletes exactly its key and keeps the keys prefix-free |
| ExprTries.RemovalLosesPrefix | ethos/src/expr_trie.h:62-65 | removing `[a, b]` loses the data at `[a]` |
| ExprTries.ExprTrie.Get | ethos/src/expr_trie.h:29-37 | the node of the key; missing nodes are created and no lookup changes |
| ExprTries.ExprTrie.Put | ethos/src/state.cpp:1237-1247 | registering data changes the lookup of that key only |
| ExprTries.ExprTrie.FindCut | ethos/src/expr_trie.h:41-60 | the loop finds the node and the candidate to delete from |
| ExprTries.ExprTrie.CutChild | ethos/src/expr_trie.h:62-65 | erasing a child removes exactly the paths through it |
| ExprTries.ExprTrie.Remove | ethos/src/expr_trie.h:39-67 | the nodes and data after a removal, as the specification says |
| LetPrinting.CountSubterms | ethos/src/expr.cpp:254-286 | every non-leaf subterm once, after all below it, with its number of parent edges |
| LetPrinting.ComputeLetBinding | ethos/src/expr.cpp:251-301 | names exactly the non-leaf subterms with two parent edges or more, each once, after all named ones below it, numbered in order |
| LetPrinting.QuotedAsRef | ethos/src/expr.cpp:203-239 | a symbol is written like a generated name exactly if that is its name |
| LetPrinting.PrintDebugInternal | ethos/src/expr.cpp:303-401 | the stack of terms and child positions prints the recursive form, with the word `_v<i>` for each named subterm and its spelling for each leaf |
| LetPrinting.PrintDebug | ethos/src/expr.cpp:403-427 | the text is one definition inside the other around the body, with the closing parentheses at the end |
| LetText.PrintedAs | ethos/src/expr.cpp:303-401 | a named term is `_v` and its number, a leaf its spelling, and anything else the word for its kind, if it needs one, and its children from left to right in parentheses |
| LetText.DagIs | ethos/src/expr.cpp:403-427 | all definitions in the order of their numbers, then the body, then one closing parenthesis for each definition |
| LetText.QuotedAs | ethos/src/expr.cpp:203-239 | a symbol stands as it is exactly if it is simple or starts with `eo::`; otherwise it is between bars, with underscores for bars and backslashes |
| LetText.DecimalIs | ethos/src/expr.cpp:303-330 | names are numbered in decimal |
| LetPrinting.DefinitionsExpand | ethos/src/expr.cpp:411-423 | a definition expands to the text of its term, or to a longer one exactly if it shows a leaf taken for an earlier name or a wrong earlier definition |
| LetPrinting.LetPrintFaithfulIff | ethos/src/expr.cpp:403-427 | replacing every name by its definition gives the text printed without names exactly if no printed leaf is spelled like a name that is defined there |
| LetPrinting.SameTextForTwoTerms | ethos/src/expr.cpp:352-427 | with a symbol named `_v0` two different terms have one text |
| LetReading.PlainReads | ethos/src/expr.cpp:303-401 | a text starts with the plain text of at most one term, up to the kinds shown, if different leaves are spelled differently |
| LetReading.WordsSameIff | ethos/src/expr.cpp:365-383 | two terms have one plain text exactly if they differ only in opaque applications shown as ordinary ones or as `as` |
| LetReading.DagReads | ethos/src/expr.cpp:403-427 | the definitions and the body can be read off the text |
| LetReading.PrintedReads | ethos/src/expr.cpp:403-427 | two terms with one printed text, and no leaf taken for a name, show the same term |
| LetReading.PrintedOnce | ethos/src/expr.cpp:403-427 | without opaque applications they are the same term |
| StringLiterals.Lexer.ReadNextChar | ethos/src/lexer.h:91-118 | reads the next character of the input, through refills of the buffer or one at a time |
| StringLiterals.Lexer.NextChar | ethos/src/lexer.h:120-142 | reads the saved character first |
| StringLiterals.Lexer.SaveChar | ethos/src/lexer.h:144-149 | puts one character back in front of the input |
| StringLiterals.Lexer.NextStringToken | ethos/src/lexer.cpp:267-288 | the token up to the closing quote, and what is still unread |
| StringLiterals.ScanIff | ethos/src/lexer.cpp:267-288 | a token ends exactly at the first quote that is not one of a pair; without one, or with the end of the file before it, there is no token |
| StringLiterals.FullByte | ethos/src/lexer.h:91-118 | the byte 255 ends a buffered file, and is an ordinary character of an interactive input |
| StringLiterals.Lexer.TokenStr | ethos/src/lexer.cpp:182-186 | the token text ends at its first zero |
| StringLiterals.CStringIs | ethos/src/lexer.cpp:182-186 | the text of a token is what comes before its first zero |
| StringLiterals.Compact | ethos/src/expr_parser.cpp:1169-1178 | the in-place loop with two indices drops what follows each quote |
| StringLiterals.UnescapeReads | ethos/src/expr_parser.cpp:1169-1178 | exactly the character after each quote that is kept is dropped |
| StringLiterals.UnescapeString | ethos/src/expr_parser.cpp:1154-1179 | strips the quotes, refuses characters above 127 (as in the C locale), undoubles quotes; an error on a text too short to strip |
| StringLiterals.Lexer.ParseStr | ethos/src/expr_parser.cpp:984-993 | lexing and unescaping compose to the value of the literal |
| StringLiterals.LiteralRoundTrip | ethos/src/expr_parser.cpp:1154-1179 | doubling quotes, quoting, lexing and unescaping gives the string back exactly for characters 1 to 127 with no quote after it, and then what follows is unread (SMT-LIB 2.6, section 3.1) |
| ContextMap.Element.MakeCurrent | cvc5/src/context/context.h:710-716 | a copy is saved on the first change in a scope, and only then |
| ContextMap.Element.Restore | cvc5/src/context/cdhashmap.h:165-168 | the last saved copy comes back; the link to the map does not |
| ContextMap.Link | cvc5/src/context/cdhashmap.h:205-216 | appends to the circular list |
| ContextMap.Unlink | cvc5/src/context/cdhashmap.h:147-160 | takes an element out of the circular list, wherever it is |
| ContextMap.PopRow | cvc5/src/context/cdhashmap.h:133-166 | restoring an element finds a copy without a map exactly for the elements inserted in the popped scope |
| ContextMap.PopRowsOk | cvc5/src/context/cdhashmap.h:133-174 | restoring the elements of a scope gives the snapshot of the scope below, and keeps the older snapshots |
| ContextMap.InsertRows | cvc5/src/context/cdhashmap.h:190-217 | a new element agrees with all older snapshots |
| ContextMap.SetRows | cvc5/src/context/cdhashmap.h:221-225 | overwriting data agrees with all older snapshots |
| ContextMap.UpsertNew | cvc5/src/context/cdhashmap.h:190-217 | a new key goes to the end of the list |
| ContextMap.UpsertAt | cvc5/src/context/cdhashmap.h:221-225 | a known key is overwritten where it is |
| ContextMap.CDHashMap.Push | cvc5/src/context/context.cpp:64-74 | remembers the current entries as a snapshot |
| ContextMap.CDHashMap.Create | cvc5/src/context/cdhashmap.h:190-204 | a new element whose saved copy, if any, has no map |
| ContextMap.CDHashMap.Set | cvc5/src/context/cdhashmap.h:221-225 | changes the data of one entry and nothing else |
| ContextMap.CDHashMap.Insert | cvc5/src/context/cdhashmap.h:330-342 | overwrites the entry where it is or appends one; true exactly for a new key; snapshots stay |
| ContextMap.CDHashMap.At | cvc5/src/context/cdhashmap.h:320-328 | the element of a key, created with the default value if it is missing |
| ContextMap.CDHashMap.Find | cvc5/src/context/cdhashmap.h:388-400 | finds exactly the entries of the map |
| ContextMap.CDHashMap.Entries | cvc5/src/context/cdhashmap.h:241-251 | iteration visits exactly the entries, in insertion order |
| ContextMap.CDHashMap.RestoreElement | cvc5/src/context/cdhashmap.h:133-174 | restores the data, or takes the element out of the table and the list |
| ContextMap.CDHashMap.RestoreAll | cvc5/src/context/context.cpp:335-343 | restores the changed elements of the scope in any order, with one result |
| ContextMap.CDHashMap.Pop | cvc5/src/context/context.cpp:76-110 | the map is the snapshot taken when the scope was opened, entries and order |
| ContextMap.CDHashMap.RunOps | cvc5/src/context/cdhashmap.h:317-342 | in any run of insertions, overwrites, pushes and pops the entries and the open snapshots are those of a plain list that is copied at a push and put back at a pop |
| ContextMap.ScopeLeavesNoTrace | cvc5/src/context/cdhashmap.h:48-58 | whatever happens between a push and its pop, the map is afterwards as it was, order included |

## Left out

- Plugins, statistics, options, tracing, warnings and error texts: I/O and reporting.
- `eo::hash`, `eo::cmp`, `eo::typeof`, arithmetic, string and bit-vector operators: parameter `prim` of `Evaluation.Env`, any function from evaluated arguments to an optional term.
- Literal operators with a wrong number of arguments: the model is stuck on them. The source only warns when it builds such a term (`ethos/src/state.cpp:772-789`), does not type check program bodies, and asserts the arity when it evaluates some of them, not `eo::requires`.
- Parameterized nil terminators, and the placeholder inserted when nil cannot be inferred: nil is a known ground term.
- 32-bit counters and indices: lists shorter than 2 to the 32.
- Applications with more than two children in the list walk: applications built by the checker are curried, so `IsCons` asks for two children.
- ProgramApps.EvaluateProgramApp: takes a bound on the number of steps, as `Evaluator.Evaluate` does.
- Evaluator.Evaluate: takes a bound on the number of steps, because Dafny methods terminate and programs need not; `EvalCompleteness.MachineIsEval` carries the claim without a bound.
- Programs.EvalClosed: assumes that nil terminators and the unmodelled operators give ground terms, and that `eo::self` and `eo::?` do not occur in program bodies, which cannot name them: `eo::self` is bound only inside `declare-consts` (`ethos/src/cmd_parser.cpp:358-370`), `eo::?` never. Malformed if-then-else is the condition of the theorem.
- Matching.MatchApp: the types of terms are a parameter; the type that it returns is the last argument type, evaluated in the matched context (`EvalCompleteness.MachineIsEval`).
- Type inference beyond matching, overload resolution and datatype declarations.
- Symbols.SymbolTable.Bind: without the overload marks in `AppInfo`, which a pop does not undo, and without the separate table for proof rules.
- ProofSemantics.CheckStep: running the program of a rule, combining a premise list and the Boolean type check are parameters (`Kernel`); soundness of a rule is a hypothesis on them.
- ProofChecker.Checker.ParsePremises: premises are names; the source parses arbitrary terms there.
- The commands that declare and define are two commands, `Declare` for terms that are no proofs and `Alias` for a second name of a bound term; raw push and pop, reset, and files and includes are not modelled, and the reference assertions are fixed before the run.
- Reference counting and deletion of terms: the term table only grows; trie removal is proved as a structure of its own.
- HashConsing.TermTable.DeclareOperator: of a declaration only the order is modelled, nil before symbol; the parser, types and the other attributes are not.
- ExprTries.ExprTrie.Remove: memory of erased nodes is not modelled; the source clears the data of the node also after erasing it.
- Evaluation tables hold terms as values, so sharing inside a frame shows only as equal keys.
- LetPrinting.PrintDebugInternal: text is a sequence of tokens. The spelling of a name and the quoting of a symbol are modelled; the names of symbols, the text of the other leaves and the words for kinds are parameters.
- LetReading.PrintedReads: a word is one token, whatever characters it has, and the words of different leaves, kinds and names are assumed to differ (`WordsApart`); two symbols of one name cannot be told apart in any text.
- StringLiterals.UnescapeString: `isprint` is false above 127, as in the C locale, which the program never changes.
- StringLiterals.Lexer.NextStringToken: only the string case of the lexer, from its opening quote; source positions are not modelled.
- ContextMap.CDHashMap.RestoreAll: the chain of changed objects of a scope is a set, and elements are restored in any order; the memory manager and garbage queue are not modelled.
- ContextMap.CDHashMap.Pop: notifications and other context objects of the scope are not modelled; `clear` and destruction of the map are left out.
- Public headers, base utilities, documentation extensions and scripts of cvc5.
