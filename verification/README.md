# Verified model of the build tool's core

Dafny model of the algorithms at the centre of this repository's build tooling (`devtools/ymake`,
`devtools/yexport` and `util`), with proofs of what they guarantee for every input and every run.

| area | modules |
|---|---|
| peers closures: path counting, exclusion by counting, bottom-up collection | `ModuleGraph`, `PeersClosures`, `PeersClosureTheory`, `MergeCounts`, `ClosureCollector`, `ExclusionLimits`, `WrappedMarks` |
| choice of library versions: rules, resolver, breadth-first search, preorder list | `DependencyRules`, `ConflictResolver`, `ConflictSearch`, `ConflictResolution`, `ConflictTheory`, `ConflictLedger`, `PreorderSort`, `ListOrder`, `CollectedModules`, `SearchStart`, `NestedLibraries`, `LostPeers`, `LostPeersExample`, `VersionOrder` |
| command inlining | `InlinerSyntax`, `Inliner`, `InlinerDefinitions`, `InlinerLaws`, `InlinerReference`, `InlinerFuel`, `InlinerLocked`, `InlinerTheory`, `InlinerMeaning`, `InlinerSingles`, `InlinerHygiene`, `InlinerEscape`, `InlinerMachine` |
| reference counting with owners and invalidation | `SafePtr`, `SafePtrTheory`, `SafePtrLeaks`, `SafePtrValidity`, `SafePtrMachine` |
| splitting of shell commands | `Splitter`, `SplitterTheory`, `SplitterGrammar` |
| replacement of export targets by path | `PathOrder`, `TargetReplacements` |
| binary save and load | `SaveLoad`, `SaveLoadLayout`, `SaveLoadTheory`, `SaveLoadOrder`, `SaveLoadStreams` |
| propagation of include directories | `IncDirs`, `IncDirsTheory` |
| shared | `Wrappers`, `Words` |

How it is laid out: code that updates fields or runs loops is a class or a method (`PeersClosure`,
`Collector`, `Resolver`, `TInliner`, `Runtime`, `TTargetReplacements`, `InputStream`,
`OutputStream`, `TModuleIncDirs`, `ConstIterator`, and the methods named in the table).  Each is
proved equal to a function on values, and the theorems are about those functions.  Where the
promise is a meaning, an independent reference is given and proved equal: explicit paths for the
counters, a reference expander with bindings for the inliner, a grammar of plain, escaped and
quoted text for the splitter, a walk up the path for the cursors, shortest walks for the search, the
trace of visits for the tables of the resolver, chains and a next-element rule for the preorder list.

Points worth knowing before reading:

* Path counters have 31 bits and wrap. All statements about counts hold modulo 2^31; those about
  exclusion need the true counts to fit.
* Nodes have no content in the closure model; a directory is the sequence of its components.
* Hygiene of parameters is stated for what the grammar of commands produces: the body of a
  transformation is one variable or one string (`devtools/ymake/lang/cmd_parser.cpp:111-119`).
* The parser, the evaluation of conditions, version component parsing and the exclusion predicate
  are function parameters, so every statement holds for all of them.
* In the pointer model the order in which members of an object are destroyed is not fixed; every
  order is covered.
* A comment in the source says of the version order that a longer left side cannot be less. That
  is so for non-negative components, and the theorem on the order says so.

## Model

| member | source | states |
|---|---|---|
| `PeersClosures.PeersClosure.Merge` | devtools/ymake/dependency_management.cpp:1446-1466 | the merged map and order, counts multiplied by the number of paths and added modulo 2^31, marks conjoined |
| `PeersClosures.MergedContains` | devtools/ymake/dependency_management.cpp:1446-1510 | after a merge a node is contained iff it is the merged node or contained in a part |
| `PeersClosures.MergedListed` | devtools/ymake/dependency_management.cpp:1446-1466 | the order lists every key once and nothing else |
| `MergeCounts.MergedCounts` | devtools/ymake/dependency_management.cpp:1446-1466 | for any number of paths: keys are joined, counts are the sum of the first, the second times the number, and the number at the node, modulo 2^31; a mark stays only where all parts have it |
| `PeersClosures.PeersClosure.Exclude` | devtools/ymake/dependency_management.cpp:1468-1505 | the marked copy as a function of closure, predicate and closures of the nodes; no lookup misses |
| `ModuleGraph.PathListExact` | devtools/ymake/dependency_management.h:27-37 | the path count used as reference is the number of distinct explicit paths |
| `ModuleGraph.FirstBlocked` | devtools/ymake/dependency_management.cpp:1476-1496 | paths split into open ones and those through each node as first blocked node |
| `ModuleGraph.AllBlockedByCount` | devtools/ymake/dependency_management.cpp:1497-1504 | every path meets a blocked node iff the end is blocked or no open path exists |
| `PeersClosureTheory.MergeRepresents` | devtools/ymake/dependency_management.cpp:1446-1466 | for every acyclic graph, merging the next peer keeps counts exact, keys equal to reachable nodes, and each node after all its descendants |
| `PeersClosureTheory.CountersAlwaysExact` | devtools/ymake/dependency_management.cpp:1475-1496 | at every step the accumulated counter of a node is the number of its paths first blocked at a visited node |
| `PeersClosureTheory.CountersBounded` | devtools/ymake/dependency_management.cpp:1483-1503 | accumulated counters never exceed the path count of their node, and the final lookup finds its key |
| `PeersClosureTheory.NothingUnderflows` | devtools/ymake/dependency_management.cpp:1482-1488 | the difference taken at a visited node is never negative: it is the number of its open paths |
| `PeersClosureTheory.NothingWraps` | devtools/ymake/dependency_management.cpp:1490-1493 | no product or sum formed at an excluded node reaches 2^31 when the path counts fit |
| `PeersClosureTheory.ExcludeExact` | devtools/ymake/dependency_management.cpp:1468-1505 | a node is marked iff it was, or every path to it meets an excluded node; counts and order stay |
| `ClosureCollector.Collector.MergeClosure` | devtools/ymake/dependency_management.cpp:983-992 | the closures of the peers, excluded under the module's own rules, are merged in order; no lookup misses |
| `ClosureCollector.MergedFirstExact` | devtools/ymake/dependency_management.cpp:983-992 | that closure has exact counts and order, and exactly the marks of the recursive reference |
| `ClosureCollector.Collector.Finish` | devtools/ymake/dependency_management.cpp:864-874 | finishing modules bottom-up keeps all finished closures exact |
| `ClosureCollector.MergePeerExact` | devtools/ymake/dependency_management.cpp:983-992 | one more peer keeps counts and marks exact |
| `ClosureCollector.SomeCollected` | devtools/ymake/dependency_management.cpp:864-874 | whatever the graph and the rules, any modules that have their peers among them can be collected |
| `ClosureCollector.MarkedIsSound` | devtools/ymake/dependency_management.cpp:983-992 | a marked node has, on every path, a node excluded by a non-immediate ancestor on that path |
| `ClosureCollector.CollectedIsSound` | devtools/ymake/dependency_management.cpp:983-992 | the same for every collected closure; direct peers are never marked |
| `ExclusionLimits.LongChainsMark` | devtools/ymake/dependency_management.h:27-37 | with counts of 2^31 and more exclusion is wrong: for every n >= 31, below a chain of n doubled edges a node is marked although 2^31 or more paths to it are open |
| `ExclusionLimits.ChainsCollected` | devtools/ymake/dependency_management.cpp:864-874 | the collector gets as far as those chains, under any rules |
| `WrappedMarks.CountersAlwaysSame` | devtools/ymake/dependency_management.cpp:1475-1496 | whatever wraps, at every step the counters are right up to multiples of 2^31 |
| `WrappedMarks.MarkedMeans` | devtools/ymake/dependency_management.cpp:1468-1505 | so a mark always means: it was there, or all paths are blocked, or 2^31 divides the number of open paths |
| `ExclusionLimits.NestedExclusionIncomplete` | devtools/ymake/dependency_management.cpp:983-992 | the converse of soundness fails: a six-module graph whose stored closure leaves a node unmarked although every path to it is blocked by some ancestor |
| `ExclusionLimits.WaysCollected` | devtools/ymake/dependency_management.cpp:864-874 | the collector gets as far as that graph |
| `DependencyRules.AddAllKeyed` | devtools/ymake/dependency_management.cpp:206-286 | rules of a module stay filed by library and never shadow a forced rule without an exemption |
| `DependencyRules.RuleStaysInLibrary` | devtools/ymake/dependency_management.cpp:170-204 | a peer that is no library is replaced only within its library |
| `DependencyRules.RuleExact` | devtools/ymake/dependency_management.cpp:170-204 | own rules come first and let a direct peer keep its version; forced rules apply exactly where no own rule does; no rule only where neither kind has one |
| `DependencyRules.DeclarationsExact` | devtools/ymake/dependency_management.cpp:206-286 | whatever a module declares in whatever order: which declarations are refused, and that the last one that counts stands for its library |
| `ConflictResolver.Resolver.AcceptResolution` | devtools/ymake/dependency_management.cpp:645-653 | what is recorded, first come first kept, also under the replacement when managed |
| `ConflictResolver.Resolver.Resolve` | devtools/ymake/dependency_management.cpp:509-547 | the new tables and the module to traverse, for unversioned, repeated, ruled and plain peers; what the tables hold over a whole search is `ConflictLedger.LedgerExact` |
| `ConflictResolver.ResolvedOneChoice` | devtools/ymake/dependency_management.cpp:509-662 | resolving keeps: one choice per library, every accepted version is the choice of its library |
| `ConflictResolver.OneVersionPerLibrary` | devtools/ymake/dependency_management.cpp:509-547 | two accepted versions of a library are the same module |
| `ConflictLedger.LedgerExact` | devtools/ymake/dependency_management.cpp:509-547 | the tables of a finished search as a function of its visits, both ways: an entry is there iff an unversioned visit left it for itself, the first visit to a library for the choice, or a later version for a choice made by a rule; each record has the choice that the rule of the first visit asks for, its version, and all versions in order of visits where conflicts are forbidden; and what is traversed in place of each visited peer |
| `ConflictLedger.ResolvedLeaves` | devtools/ymake/dependency_management.cpp:509-547 | one call adds exactly the entries its visit is to leave |
| `ConflictLedger.VisitAnswered` | devtools/ymake/dependency_management.cpp:527-531 | a visited unversioned module stands for itself; a visited version has an entry iff it is the choice of its library or a rule made the choice, and then stands for the choice |
| `ConflictSearch.EnqueDeps` | devtools/ymake/dependency_management.cpp:1035-1042 | all peers become visited; those new and admitted are queued in order, once |
| `ConflictSearch.StepInv` | devtools/ymake/dependency_management.cpp:1048-1075 | every turn keeps: each module queued at most once, counter-based depth equal to the true level of all visited and queued modules |
| `ConflictSearch.InvBound` | devtools/ymake/dependency_management.cpp:1048-1075 | the number of turns is bounded by the number of modules, so the search ends |
| `ConflictResolution.ResolveConflicts` | devtools/ymake/dependency_management.cpp:1022-1078 | the program answers what the finished run of the search has accumulated |
| `ConflictTheory.SearchExact` | devtools/ymake/dependency_management.cpp:1033-1075 | visits are in order of distance and never repeat, and a module is visited iff it is a direct peer the closure admits, or a peer that closure or replacements admit at the visit that first meets it |
| `ConflictTheory.NothingMissed` | devtools/ymake/dependency_management.cpp:1033-1075 | a module the closure admits that is met at all is visited, or stands in for a visited peer |
| `ConflictTheory.FirstMeetingDecides` | devtools/ymake/dependency_management.cpp:1037-1039 | a module is visited iff the closures admit it at the visit that first meets it |
| `ConflictTheory.MetTooEarly` | devtools/ymake/dependency_management.cpp:1037-1039 | a module first met before it is admitted is lost even if a later replacement brings it in |
| `LostPeers.NotLostNearby` | devtools/ymake/dependency_management.cpp:1035-1069 | for every collected problem: a module first met at a direct peer is never lost, if any replacement brings it in it is visited |
| `LostPeers.OvertakenIsLost` | devtools/ymake/dependency_management.cpp:1035-1069 | one level deeper it is: whenever two direct peers have one peer each, the first of which lists a module the closure lacks and the second is replaced by a version that brings it in |
| `LostPeersExample.ExampleFinished` | devtools/ymake/dependency_management.cpp:864-874 | the collector finishes the six modules of such a case |
| `LostPeersExample.ExampleLost` | devtools/ymake/dependency_management.cpp:1035-1069 | and when the seventh is finished with the closure merged from theirs, the module brought in is not visited |
| `ConflictTheory.NoShorterWalk` | devtools/ymake/dependency_management.cpp:1053-1057 | no walk of the traversal to a visited module is shorter than its depth |
| `ConflictTheory.WalkOfDepth` | devtools/ymake/dependency_management.cpp:1053-1057 | a walk of exactly that length exists |
| `ListOrder.VisitOrder` | devtools/ymake/dependency_management.cpp:1035-1075 | peers are visited in the order in which they are first met, those met at one visit in the order of declaration; so ties between versions at one distance are broken by declaration |
| `ConflictTheory.NearestVersionWins` | devtools/ymake/dependency_management.cpp:535-538 | the first version met decides; without a rule it is chosen and no visited version of the library was nearer |
| `ConflictTheory.SearchOneVersion` | devtools/ymake/dependency_management.cpp:1022-1078 | a finished search has accepted one version per library |
| `ConflictTheory.ListOneVersion` | devtools/ymake/dependency_management.cpp:883-885 | the list from search and preorder walk never holds two versions of a library |
| `NestedLibraries.NestedLibraryBreaks` | devtools/ymake/dependency_management.cpp:170-204 | the other half of its condition: if the directory of a versioned direct peer is a library with a rule, and another version of that library is a direct peer too, the list holds two versions of it |
| `NestedLibraries.ExampleBreaks` | devtools/ymake/dependency_management.cpp:883-885 | three filed modules for which this happens |
| `CollectedModules.CollectedIsComplete` | devtools/ymake/dependency_management.cpp:864-874 | the closures the collector has stored meet what all statements about the search ask for |
| `CollectedModules.CollectedIsClosed` | devtools/ymake/dependency_management.cpp:883-885 | a module that is being finished poses a closed problem to the search |
| `PreorderSort.Sort` | devtools/ymake/dependency_management.cpp:1086-1114 | the stack of spans yields the recursive depth-first preorder |
| `PreorderSort.ListExact` | devtools/ymake/dependency_management.cpp:1086-1114 | the list has no duplicates and holds exactly the resolutions reachable by chains from the direct peers |
| `ListOrder.ListNext` | devtools/ymake/dependency_management.cpp:1086-1114 | each listed module is the first peer still to be listed of the last module before it that has one, and a direct peer where none has |
| `VersionOrder.VersionLess` | devtools/ymake/dependency_management.cpp:85-111 | the comparison as a function of the components, for any parser of components |
| `VersionOrder.LessIsLexicographic` | devtools/ymake/dependency_management.cpp:85-111 | on non-negative numeric versions it is the lexicographic order of zero-padded components |
| `VersionOrder.StrictWeakOrder` | devtools/ymake/dependency_management.cpp:85-111 | irreflexive, transitive, unordered iff equal up to trailing zeros, which is transitive |
| `VersionOrder.TrailingZero` | devtools/ymake/dependency_management.cpp:102-110 | a trailing zero component makes no difference |
| `VersionOrder.MixedCycle` | devtools/ymake/dependency_management.cpp:93-99 | with numbers and text mixed, three versions can be each less than the next in a circle |
| `InlinerSyntax.WrittenTwice` | devtools/ymake/command_store.cpp:286-356 | locking and unlocking: the last one written counts |
| `InlinerLocked.LockedIsData` | devtools/ymake/command_store.cpp:280-371 | inlining a locked definition again leaves it as it is |
| `InlinerFuel.LimitIndependent` | devtools/ymake/command_store.cpp:373-791 | the meaning given by the reference expander does not depend on its nesting limit, once that is not hit |
| `InlinerTheory.InliningIsByName` | devtools/ymake/command_store.cpp:373-791 | for all scripts: unless the nesting limit stops it, the inliner does what the reference expander does when it leaves by name what has no meaning; no locked variable is left |
| `InlinerMeaning.InliningPreservesMeaning` | devtools/ymake/command_store.cpp:373-791 | for all scripts: unless the nesting limit stops it, the inliner agrees with the meaning of the script under every higher limit, in result, macro calls and failure, iff evaluation meets no parameter with several arguments in a modifier argument |
| `InlinerSingles.SingleArgumentsAgree` | devtools/ymake/command_store.cpp:358-371 | a condition on calls under which that never happens: every name that modifier arguments mention is given at most one argument wherever it is bound or defined |
| `InlinerEscape.CallDecides` | devtools/ymake/command_store.cpp:396-402 | for a macro that mentions its parameter in a modifier argument and any actual: the call has a meaning iff the actual does not stand for several arguments |
| `InlinerEscape.ParameterEscapes` | devtools/ymake/command_store.cpp:396-402 | if it stands for several, the inliner returns the text of the macro, which still names the parameter |
| `InlinerEscape.TwoArgumentsEscape` | devtools/ymake/command_store.cpp:396-402 | two values are enough, in every configuration |
| `InlinerHygiene.NoParameterIsLeft` | devtools/ymake/command_store.cpp:358-371 | otherwise parameters stay in their scope: nothing of the name of a bound parameter is left of a call, whatever the macro does |
| `InlinerHygiene.NothingEscapes` | devtools/ymake/command_store.cpp:358-371 | the same of the inliner, wherever the call has a meaning |
| `InlinerMachine.TInliner.GetVariableDefinition` | devtools/ymake/command_store.cpp:62-112 | scopes first; reserved names and names of macros are no variables; otherwise the k-th base definition at recursion depth k, the cache being filled one entry at a time |
| `InlinerMachine.TInliner.CachedDefinition` | devtools/ymake/command_store.cpp:93-112 | at a miss the cache holds as many entries as the current depth |
| `InlinerMachine.TInliner.ParseDefinition` | devtools/ymake/command_store.cpp:117-178 | command texts and plain or mixed values are joined and parsed, values that are all macros are one constant of late globs; the text is fixed by `InlinerDefinitions.DefinitionExact` |
| `InlinerDefinitions.SpacedText` | devtools/ymake/vars.cpp:22-33 | values are joined in order with exactly one space between neighbours, so that cutting there gives them back; empty ones in front leave no trace |
| `InlinerDefinitions.DefinitionExact` | devtools/ymake/command_store.cpp:117-178 | what is parsed: a command text as it is, plain values joined by single spaces, mixed values joined in their quoted forms; values that are all macros are not parsed, their names in order are the late globs |
| `InlinerMachine.TInliner.GetMacroDefinition` | devtools/ymake/command_store.cpp:183-229 | the parsed definition, from the one entry the macro has in the cache it shares with variables |
| `InlinerMachine.TInliner.ProcessMacroSideChannels` | devtools/ymake/command_store.cpp:231-258 | one more call is recorded and the channels stay those of the calls so far |
| `InlinerMachine.GatheredConcat` | devtools/ymake/command_store.cpp:232-243 | directories of later calls follow those of earlier ones; there are none iff no called macro has the option |
| `InlinerMachine.TInliner.FillMacroArgs` | devtools/ymake/command_store.cpp:358-371 | arguments are inlined in the caller's scope and locked, with the macros they call |
| `InlinerMachine.TInliner.InlineTransformation` | devtools/ymake/command_store.cpp:433-484 | computes the specified term and makes the specified macro calls; scope, depth and recursion depths are restored, also on failure |
| `InlinerMachine.TInliner.InlineModArgTerm` | devtools/ymake/command_store.cpp:373-431 | the same for terms of modifier arguments |
| `InlinerMachine.TInliner.InlineScalarTerm` | devtools/ymake/command_store.cpp:486-582 | the same for scalar terms |
| `InlinerMachine.TInliner.InlineArguments` | devtools/ymake/command_store.cpp:595-685 | the same for arguments |
| `InlinerMachine.TInliner.InlineCommands` | devtools/ymake/command_store.cpp:687-769 | the same for commands |
| `InlinerMachine.TInliner.Inline` | devtools/ymake/command_store.cpp:771-791 | ends for arbitrarily recursive macros, returns the specified script with the side channels of exactly the macros called, and leaves all depths at zero |
| `InlinerLaws.ConstantsStay` | devtools/ymake/command_store.cpp:687-769 | a script of constants is its own inlining and calls nothing |
| `InlinerLaws.ScriptAfterScript` | devtools/ymake/command_store.cpp:687-769 | one script after another inlines to one result after the other, calls in that order, the first failure being that of the whole |
| `InlinerLaws.DefinitionsUnfold` | devtools/ymake/command_store.cpp:93-112 | a variable whose definitions each refer to the variable stands for all of them in order: in a definition the variable means the one before |
| `InlinerLaws.CallPasses` | devtools/ymake/command_store.cpp:358-371 | a macro that only mentions its parameter stands for what is passed, several values of one parameter one after the other |
| `InlinerLaws.ConditionChooses` | devtools/ymake/command_store.cpp:486-582 | the value of the condition chooses the command; none is an error |
| `InlinerLaws.ReservedExact` | devtools/ymake/command_store.cpp:70-80 | reserved are exactly names with one of three endings and names of macros |
| `InlinerLaws.ShapeExact` | devtools/ymake/command_store.cpp:486-582 | which scripts are empty, one argument, several arguments, several commands |
| `SafePtrTheory.Unpack` | util/ysafeptr.h:143-181 | both owner counts and both flags can be read back from the packed word |
| `SafePtrTheory.OwnerOverflow` | util/ysafeptr.h:160-181 | the 2^20-th TObj shows up as a TMObj |
| `SafePtrTheory.NextSound` | util/ysafeptr.cpp:10-40 | every step, destructions in progress included, keeps the counters exact and all pointers live |
| `SafePtrTheory.RunsAreSound` | util/ysafeptr.cpp:10-40 | in every state of every run within the counter ranges, with code of destructors that makes, assigns and drops pointers: no assertion fails, nothing is deleted while pointed to, while being invalidated, or twice |
| `SafePtrTheory.CascadeEnds` | util/ysafeptr.h:209-217 | every step of a destruction reduces the remaining work |
| `SafePtrTheory.InvalidForever` | util/ysafeptr.cpp:14-26 | an object that outlives its last TObj or TMObj is invalid at every later state with no destruction in progress |
| `SafePtrLeaks.NothingLeaks` | util/ysafeptr.cpp:34-40 | nothing leaks: in every state of every run an object that was ever pointed to is gone, or pointed to, or its destruction is in progress |
| `SafePtrLeaks.AliveIffPointed` | util/ysafeptr.h:70-83 | with no destruction in progress such an object exists iff it is pointed to |
| `SafePtrLeaks.ContentsGone` | util/ysafeptr.h:209-217 | a destruction ends only when the object holds no pointer any more |
| `SafePtrValidity.ValidUntilLost` | util/ysafeptr.cpp:10-26 | an object is valid unless it lost its last owner of some kind |
| `SafePtrMachine.Runtime.ReleasePtr` | util/ysafeptr.h:70-83 | the recursive release carries out a run of the machine to its end and restores the stack; that this deletes what is no longer pointed to is `SafePtrLeaks.AliveIffPointed` |
| `SafePtrMachine.Runtime.Invalidation` | util/ysafeptr.cpp:20-25 | the same for invalidation: flags, temporary reference, destruction, release |
| `SafePtrMachine.Runtime.DestroyContents` | util/ysafeptr.h:209-217 | all members are destroyed in some order; counters survive |
| `SafePtrMachine.Runtime.MakePtr` | util/ysafeptr.h:297-310 | a new pointer, null or not, acquires its object, also while destructions are in progress |
| `SafePtrMachine.Runtime.SetObject` | util/ysafeptr.h:289-294 | assignment acquires before it releases, for null and other targets; what it starts is finished, what was in progress stays so |
| `SafePtrMachine.Runtime.DestroyPtr` | util/ysafeptr.h:311-313 | destruction of a pointer, null or not, releases its object; what it starts is finished, what was in progress stays so |
| `SafePtrMachine.CascadeLimited` | util/ysafeptr.h:209-217 | destructions stay within the counter ranges |
| `SafePtrMachine.OperationExtendsRun` | util/ysafeptr.cpp:10-40 | an operation of the program that itself stays within the counter ranges extends a run of the machine, so its final state is sound |
| `Splitter.SplitString` | devtools/ymake/command_helpers.cpp:4-63 | the loop computes the specified tokens or fails, for both delimiters and both modes; what the tokens are is `SplitterGrammar.SplitMeans` |
| `SplitterGrammar.SplitMeans` | devtools/ymake/command_helpers.cpp:4-63 | every text is a run of plain characters, escaped characters and quoted strings, ending cleanly, in a lone backslash, or inside a quote; splitting fails iff inside a quote and otherwise yields what the atoms between plain delimiters stand for, in either mode |
| `SplitterGrammar.LetterReads` | devtools/ymake/command_helpers.cpp:30-38 | in quotes a backslash is dropped in clean mode before a backslash and the quote and is an ordinary character before anything else |
| `SplitterGrammar.EscapedReads` | devtools/ymake/command_helpers.cpp:27-38 | outside quotes the same before a space, a backslash, either quote and an ampersand |
| `SplitterGrammar.QuotedIsOneArgument` | devtools/ymake/command_helpers.cpp:39-50 | a quoted string of ordinary characters is one argument, the string itself |
| `Splitter.SplitCommandsAndArgs` | devtools/ymake/command_helpers.cpp:66-73 | arguments of every command, or failure |
| `Splitter.SplitCommands` | devtools/ymake/command_helpers.cpp:75-89 | commands with single spaces between arguments, or failure |
| `Splitter.SplitArgs` | devtools/ymake/command_helpers.cpp:91-93 | arguments in clean mode, or failure |
| `SplitterGrammar.CommandsInOrder` | devtools/ymake/command_helpers.cpp:66-89 | each piece between unquoted ampersands becomes one command, in order: its arguments, or its text with exactly one space between arguments |
| `SplitterTheory.SplitIsSegments` | devtools/ymake/command_helpers.cpp:13-62 | splitting is cutting at unquoted, unescaped delimiters, rendering each piece and dropping empty ones; it fails iff a quote stays open |
| `SplitterTheory.ReadsBack` | devtools/ymake/command_helpers.cpp:23-51 | text rendered in keep mode reads back the same in either mode, doubled backslashes included |
| `SplitterTheory.KeepIsIdempotent` | devtools/ymake/command_helpers.cpp:4-63 | every piece of a keep pass is a fixed point of it and never makes a later pass fail |
| `SplitterTheory.PassesAgree` | devtools/ymake/command_helpers.cpp:66-93 | on every input splitting each command gives exactly the arguments of the combined pass, and both fail on the same inputs |
| `TargetReplacements.TTargetReplacements.AddSpec` | devtools/yexport/target_replacements.cpp:38-57 | which paths lead to the new replacement and which are skipped; others keep theirs; a global replacement implies listed skips |
| `TargetReplacements.TTargetReplacements.GetReplacement` | devtools/yexport/target_replacements.cpp:105-180 | over the tables: the nearest listed directory above the path without its type decides, its replacement if it is listed as replaced and none if it is skipped; where none is listed the global replacement or none; links are an error |
| `TargetReplacements.UntypedExact` | devtools/ymake/common/npath.h:68-118 | `$S/x` and the like stand for `x`, links for nothing, untyped paths for themselves |
| `TargetReplacements.TTargetReplacements.ApplyReplacement` | devtools/yexport/target_replacements.cpp:60-76 | the semantics replaced, or followed by the additions it lacks, each once and in their order |
| `TargetReplacements.Lookup` | devtools/yexport/target_replacements.cpp:117-175 | two cursors over the sorted maps find what walking up one component at a time finds |
| `TargetReplacements.GetRange` | devtools/yexport/target_replacements.cpp:183-195 | every entry that can match lies between the cursors |
| `TargetReplacements.NearestDecides` | devtools/yexport/target_replacements.cpp:143-175 | the nearest listed directory above a path decides, replacement before skip; unmatched iff none is listed |
| `PathOrder.InsertUpdates` | devtools/yexport/target_replacements.cpp:45-56 | inserting into the sorted entries updates the map they stand for |
| `SaveLoad.NumberRoundTrip` | util/ysaveload.h:277-296 | little-endian numbers come back |
| `SaveLoadTheory.SizeRoundTrip` | util/ysaveload.h:277-296 | every size below 2^64 comes back, escaped or not |
| `SaveLoadLayout.SizeBytes` | util/ysaveload.h:277-284 | the bytes of a size: four, lowest first, below 2^32 - 1; else four bytes of all ones and eight with the size |
| `SaveLoadLayout.ListLayout` | util/ysaveload.h:328-343 | lists and sets are a size and the elements in order: one more element goes last |
| `SaveLoadLayout.PairLayout` | util/ysaveload.h:405-424 | first component, then second; an entry of a map is such a pair |
| `SaveLoadLayout.TupleLayout` | util/ysaveload.h:428-442 | one more component of a tuple goes first |
| `SaveLoadLayout.FlagLayout` | util/ysaveload.h:650-711 | one byte of presence or tag, then the value |
| `SaveLoadTheory.RoundTrip` | util/ysaveload.h:328-712 | for every schema and value, loading what was saved returns the value and leaves the rest of the input, whatever the target held |
| `SaveLoadTheory.LoadAgrees` | util/ysaveload.h:328-712 | more input changes no outcome except running out of input |
| `SaveLoadTheory.PrefixFails` | util/ysaveload.h:67-89 | every proper prefix of a saved value runs out of input |
| `SaveLoadOrder.SameMeaning` | util/ysaveload.h:545-575 | values that differ, at any depth, only in the order of set members and map entries are the same value |
| `SaveLoadOrder.MeaningSame` | util/ysaveload.h:545-575 | and only those are |
| `SaveLoadOrder.OrderIndependent` | util/ysaveload.h:545-575 | such values load alike whatever the targets held, and values that load alike are such |
| `SaveLoadTheory.SelfDelimiting` | util/ysaveload.h:328-712 | no saved value is a proper prefix of another |
| `SaveLoadStreams.OutputStream.Save` | util/ysaveload.h:247-255 | appends exactly the saved form to the stream |
| `SaveLoadStreams.OutputStream.SaveReversed` | util/ysaveload.h:428-442 | tuples are written last component first |
| `SaveLoadStreams.InputStream.LoadValue` | util/ysaveload.h:257-265 | reads what the format specifies, or fails as specified |
| `SaveLoadStreams.BlockSaves` | util/ysaveload.h:76-79 | plain elements written as one block give the same bytes as written one by one |
| `SaveLoadStreams.BlockLoads` | util/ysaveload.h:81-89 | read as one block they give the same outcome as read one by one, failure included |
| `SaveLoadStreams.InputStream.LoadVector` | util/ysaveload.h:338-343 | reads a size and that many elements over the old ones, one by one or as a block |
| `SaveLoadStreams.InputStream.InsertMembers` | util/ysaveload.h:553-562 | one variable is loaded over and over and inserted |
| `SaveLoadStreams.InputStream.LoadOptional` | util/ysaveload.h:662-671 | absent or the loaded value |
| `SaveLoadStreams.InputStream.LoadVariant` | util/ysaveload.h:696-711 | the alternative of the tag; an unknown tag is an error |
| `IncDirs.TModuleIncDirs.Add` | devtools/ymake/addincls.cpp:29-39 | a directory enters the lists of its scope and the wider ones, once |
| `IncDirs.TModuleIncDirs.PropagateTo` | devtools/ymake/addincls.cpp:41-53 | each language propagates to itself, in any order |
| `IncDirs.AddedValid` | devtools/ymake/addincls.cpp:29-39 | global directories stay user directories, those local ones; lists stay unique |
| `IncDirs.AddsExact` | devtools/ymake/addincls.cpp:29-39 | after any run of additions: a module sees all it declares, its users the user and global ones, everybody above only the global ones; lists are extended by exactly these in order |
| `IncDirs.ExtendedOrder` | devtools/ymake/addincls.cpp:41-53 | what is added to a list follows what was there, new and in the order of first occurrence |
| `IncDirs.PropagatedValid` | devtools/ymake/addincls.cpp:41-53 | propagation keeps scopes nested and lists unique |
| `IncDirs.PropagateDirs` | devtools/ymake/addincls.cpp:162-166 | processing modules after their peers leaves each with its own directories and what its peers propagate |
| `IncDirsTheory.PropagateEverything` | devtools/ymake/addincls.cpp:162-166 | the whole run: what every module ends with, and that scopes are nested and lists unique at the end |
| `IncDirsTheory.PropagationIsClosure` | devtools/ymake/addincls.cpp:41-53 | propagated global directories are those of all strict descendants; users see in addition exactly the user directories of direct peers |
| `IncDirsTheory.ConstIterator.Next` | devtools/ymake/addincls.h:63-68 | one step drops the first of the remaining directories, skipping empty collections |
| `IncDirsTheory.ConstIterator.constructor` | devtools/ymake/addincls.h:53-61 | all directories remain at the start |
| `IncDirsTheory.Collect` | devtools/ymake/addincls.cpp:55-64 | the walk yields own directories followed by propagated ones |

## Left out

- ClosureCollector.MergedFirstExact: marks are claimed where the true path counts of the peers fit in 31 bits; `ExclusionLimits.LongChainsMark` shows that they are wrong otherwise, and `WrappedMarks.MarkedMeans` what they still mean. Counts modulo 2^31 and order are claimed always.
- ClosureCollector.CollectedIsSound: one direction only; `ExclusionLimits.NestedExclusionIncomplete` shows that the other fails. The exact condition of a mark is the recursive reference of `MergedFirstExact`.
- ConflictTheory.ListOneVersion: needs versioned directories that are no libraries; `NestedLibraries.NestedLibraryBreaks` shows what happens when one is.
- ConflictLedger.LedgerExact: under the same condition as `ListOneVersion`, and for peers whose kind says whether they are versioned. The report made of the recorded conflicts is not modelled.
- InlinerLaws.DefinitionsUnfold: for as many definitions as the nesting limit lets through; `BaseDefinitions` is for any number under any limit that is high enough.
- InlinerMeaning.InliningPreservesMeaning: the code leaves the name of a parameter with several arguments in a modifier argument, outside the scope that binds it, where a scalar position rejects it. The reference gives such a mention no meaning.
- InlinerSingles.SingleArgumentsAgree: one direction only; a name may be given several arguments and never be met. What is met decides exactly, by `InliningPreservesMeaning`.
- InlinerMachine.TInliner.constructor: no macro may be a variable at the same time, as `devtools/ymake/command_store.cpp:213-214` asserts.
- SafePtrTheory.RunsAreSound: `Clear`, `Extract` and `CopyValidFlag` are not part of the model; destructors are taken not to point at an object that is being deleted, nor to become the kind of owner that an object being invalidated has just lost.
- SafePtrMachine.Runtime.ReleasePtr: objects are entries of a map, so placement of a new object over the destroyed one is only present as survival of the counters.
- SaveLoadTheory.RoundTrip: multimaps, priority queues, `TBuffer` and pool-allocated strings are not part of the schema; a failed load says nothing about the partly filled target.
- TargetReplacements.TTargetReplacements.GetReplacement: validation of specifications before they are added is not modelled; the lookup is proved for unvalidated ones too.
- VersionOrder.StrictWeakOrder: numeric versions only; `MixedCycle` shows that mixed ones need not be ordered.
- IncDirs.TModuleIncDirs.PropagateTo: an absent list and an empty one are the same; saving and restoring of directory lists is not modelled.
- Management of direct peers, proxies, warnings and other diagnostics of dependency management.
- The macro parser, pre-evaluation and modifier evaluation of commands, and hash-consing of commands.
- Joining of arguments with escapes, which relies on a library function.
- Iteration over the module graph, the concurrency shell, configuration, file system and template code.
