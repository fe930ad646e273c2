# Calvin: the graph compiler, the deploy rules and the runtime protocols

This project models the parts of Calvin in which a wrong step is hard to see, and proves what they are for.

**The graph compiler.** CalvinScript describes an application as a graph of actors and component
instances. The compiler rewrites shorthand ports, resolves constants, replaces instances by copies of
their definitions and flattens the result. `GraphSyntax`, `Connectivity`, `Walks` and `Scoping` say what a
nested graph means, without mentioning the compiler: two ports are connected if a walk leads from one to
the other through hull ports, once for each way of going, and an argument has the value that lexical scope
gives it. `Occurrences` and `WrittenWalks` say the same of a script that still has instances in it: which actors
there are, along which chains of instances, with which values, and which walks. `Flatten` has the tree of
mutable nodes and the visitor that dissolves blocks into their parents; `Splicing` is the function it computes; `LinkWeights`, `SpliceLevels`, `FlattenConnectivity` and
`FlattenNames` prove that the outcome has the meaning of the input. `ComponentExpansion` is the expander,
`Constants` and `ConstantTrees` the resolution of constants, `PortNotation` and `PortRewrites` the shorthand
ports, and `LinkCounts` the link totals that the deployer counts down. `Compile` goes from a checked script to
the flat graph, `FlatOccurrences` relates that graph to what is written, and `CodeGeneration` runs all these
passes, from the script as it is written. `AstJson` and `ParentPointers` are the stored form of the tree.

**The deploy rules.** `RuleRounds` and `RuleExpander` are the rounds in which named rules are unfolded
(`RuleExpansion` says what unfolding is), `RuleCompiler` lowers `& | ~` to requirement lists, `DynOps` are
the set operators that work while their leaves are still being filled, and `RequirementMatching` builds a
tree of these operators from a requirement list and collects placements from it.

**The runtime protocols.** `DestroyScan` and `AppDestroy` are the distributed destruction of an application
with replicas and retries; `SimultaneousJoin`, `JoinCallbacks` and `CalvinNetworking` are joins, links and
callbacks, and `JoinRuns` lets two networks connect to each other; `Aggregation` has the callbacks that wait for
a number of replies; `IndexCodec` is the escaped form of a node attribute.

Code that updates objects is a class here, and its methods are proved against functions and predicates on
values. What every run keeps is in the `Valid()` of the class or in a predicate `Inv`; every event is
a method or a step that keeps it. Ghost fields record the history that the statements are about.

Where the code does less than its comments or messages say, the code is what is modelled, with an input on
which it fails and the condition under which it meets the intention, proved in both directions:

- Flattening looks for ports at depth two, so a component instance that is linked straight back to itself
  keeps that link; flattening is right if and only if there is none (`FlattenConnectivity.FlattenExact`,
  `Compile.SelfLinkIsNotResolved`).
- A rule may refer to a later one and still be reported as not expandable; when this happens is
  characterised by `RuleExpander.ExpandRules.Process`, and `RuleExpander.ForwardReferenceGivesUp` is a case.
- Unions lose negations and unions on their right; `RuleCompiler.PlainExactly` says which rules keep their
  meaning, `RuleCompiler.NegationIsLost` and `RuleCompiler.RightUnionIsLost` are cases.
- Without a positive requirement, negative ones are ignored; `RequirementMatching.ReqMatch.FoundRightExactly` says
  when that does no harm, `RequirementMatching.OnlyNegative` is a case where it does.
- A constant that refers to a reference is called circular even if its chain ends at an undefined name
  (`Constants.MisreportedExactly`, `Constants.NotCircular`), and a constant wins over a component parameter of
  the same name (`Constants.ConstantsAreOutermost`, `Occurrences.EitherWayExactly`,
  `Constants.ConstantHidesParameter`).
- A list of index items comes back from its encoding only if it is readable (`IndexCodec.RoundTrip`,
  `IndexCodec.NotReadable`).
- An answer of the registry that names a replica twice, or one that is an actor of the application already,
  makes the comparison of sizes wrong for good (`DestroyScan.ReplyKeepsExactly`, `AppDestroy.NamedTwice`). This is
  also what happens when a destruction is tried again after one that gave up a replica, which by then is among
  the actors.
- If the registry never finds a replica, the destruction may never be carried out
  (`AppDestroy.LostReplica`): once nothing is outstanding, it has been carried out exactly if no replica was
  given up or the last event was not the answer about a single actor (`Concluded`, which every event of
  `AppDestroy.AppManager` keeps).

One more is stated as it is: a new connection that replaces a link on the side of its originator starts
with an empty reply table, because the old link is passed in the place of another parameter (`CalvinNetworking.CalvinNetwork.PlaceLink`).

## Model

| member | source | states |
|---|---|---|
| Walks.ResolveIsReachability | calvin/csparser/codegen.py:523-611 | Two ports are in the meaning of a block if and only if a walk over links, in and out of hulls, leads from one to the other |
| Walks.FlatLinksAreWalks | calvin/csparser/codegen.py:496-611 | The flat links join exactly the ports that a walk joins, if and only if no instance at any level is linked straight back to itself |
| FlattenConnectivity.FlatIsResolve | calvin/csparser/codegen.py:496-611 | Without self-links, flattening keeps the connections with their multiplicities |
| FlattenConnectivity.FlattenExact | calvin/csparser/codegen.py:563-567 | The multiset of flat links is that of the connections if and only if no instance is linked to itself; the search at depth two is what makes the difference |
| FlattenConnectivity.FlatKeepsHull | calvin/csparser/codegen.py:496-521 | Dissolving nested blocks leaves the hull of the block as it was, with no link passing straight through it |
| Flatten.Flatten.VisitLink | calvin/csparser/codegen.py:523-592 | Visiting a link promotes its real ends, adds one link for every link on the other side of the hull, and marks exactly the replaced links on both sides as consumed |
| Flatten.Flatten.Dissolve | calvin/csparser/codegen.py:500-521 | The parent ends up with the spliced links and, behind its own, the actors of the block with full names and outer arguments |
| Flatten.Flatten.VisitBlock | calvin/csparser/codegen.py:496-521 | A nested block of any depth is dissolved into its parent, which changes in links, actors and blocks only |
| Flatten.Flatten.Process | calvin/csparser/codegen.py:484-521 | The whole tree becomes one level: actors in lexical scope, the connections of the graph exactly when no instance is linked to itself, and no internal port left |
| Flatten.FlattenTheorem | calvin/csparser/codegen.py:473-640 | The same for the specification: connections, names and arguments, no internal ports |
| LinkWeights.SumSplice | calvin/csparser/codegen.py:533-611 | Splicing one block conserves every weighted count of connections, with ports on the hull weighing what lies behind them |
| SpliceLevels.SpliceKeepsLevel | calvin/csparser/codegen.py:496-521 | After one block is dissolved the remaining blocks are still connected inside and outside |
| Scoping.FlatActorsAreLexical | calvin/csparser/codegen.py:613-626 | Substituting arguments level by level is evaluation in the nested environments of the enclosing blocks, and names add up to ':'-joined paths |
| FlattenNames.FlatNamesDistinct | calvin/csparser/codegen.py:613-616 | No two actors of the tree get the same flat name |
| FlattenNames.EndsAreFlatActors | calvin/csparser/codegen.py:628-640 | Every port of a connection carries the flat name of an actor |
| Compile.ExpandedIsReady | calvin/csparser/codegen.py:954-1122 | What the consistency check accepts, once expanded, meets every precondition of flattening at every level |
| Compile.CompiledGraph | calvin/csparser/codegen.py:1198-1206 | Expanding a checked script and flattening the result: connections, multiplicities, names and arguments are those of the nested graph unless an instance is linked to itself, and all ends are flat actors |
| Compile.SelfLinkIsNotResolved | calvin/csparser/codegen.py:563-567 | A script that every check accepts, with one instance linked to itself, is flattened to something else than its connections |
| CodeGeneration.RewriteBlock | calvin/csparser/codegen.py:1163-1181 | The rewrites turn a written block into one with plain links that stands for the same connections, its own actors first; added actors are linked only at the ports of their type |
| CodeGeneration.Phase1 | calvin/csparser/codegen.py:1163-1186 | Rewriting all blocks and replacing constants: every block keeps its connections, a constant has a value exactly if its chain reaches it, and nothing is reported exactly if all have |
| CodeGeneration.GenerateCode | calvin/csparser/codegen.py:1163-1206 | From the script as it is written to the flat graph. A flat actor is one that is written somewhere, for every chain of instances that leads there: with the names of the instances in front, and each argument standing for what the instance gives to the parameter, seen from outside of it, constants first; if no constant hides a parameter of another value, constants may as well come last. If the checks accept what the rewrites leave, the flat links join the ports that walks through the script join, and as often as there are ways, unless an instance is linked to itself. Reported are exactly the types that are used and not known, and none unless that is asked for |
| Occurrences.EitherWayExactly | calvin/csparser/codegen.py:936-951 | Everywhere in a script, whatever instances lead there, looking up constants before parameters and after them comes to the same if and only if no instance gives a parameter with the name of a constant another value |
| FlatOccurrences.FlatActorsOccur | calvin/csparser/codegen.py:460-470 | The actors of the expanded and flattened script are those that occur in it along chains of instances; a parameter in a definition has the value of the last argument of that name of the instance, evaluated outside of it |
| FlatOccurrences.UnknownIsUsed | calvin/csparser/codegen.py:440-456 | A type is found to be unknown in an expanded block exactly if it is not known and an actor of that type is written where a chain of instances leads |
| WrittenWalks.WalksAreWritten | calvin/csparser/codegen.py:460-611 | The walks through the expanded graph are those through the script as it is written: along links, into the definitions of instances and out of them |
| WrittenWalks.FreeExactly | calvin/csparser/codegen.py:563-567 | No instance of the expanded graph is linked to itself if and only if none is where the chains of the script lead |
| ConstantTrees.ReplaceFull | calvin/csparser/codegen.py:936-951 | Replacing constants before components are expanded comes to replacing them in the expanded graph |
| ConstantTrees.TreeOver | calvin/csparser/codegen.py:936-951 | Lexical evaluation of the replaced tree is lexical evaluation with the constants outermost, at every level |
| ComponentExpansion.FullIsExpanded | calvin/csparser/codegen.py:440-470 | With acyclic references, unfolding leaves only actors that are not components |
| ComponentExpansion.FullIsStable | calvin/csparser/codegen.py:440-470 | Unfolding deeper than the references go changes nothing |
| ComponentExpansion.InstanceEitherWay | calvin/csparser/codegen.py:460-470 | An instance becomes the same block whether or not its definition had been expanded in place before it was copied |
| ComponentExpansion.FullIsUnfolded | calvin/csparser/codegen.py:440-470 | At every depth the expanded block has the links and the other actors that were written, and one block for each instance: with its name, its last argument of each name, and the contents of its definition |
| ComponentExpansion.ArgMapLast | calvin/csparser/codegen.py:465-467 | Of several arguments with one name the last one is given to the block |
| ComponentExpansion.Expander.VisitActors | calvin/csparser/codegen.py:440-470 | Actors stay, and every instance, in order, becomes a block with its name and arguments and what its definition says, unfolded to any depth |
| ComponentExpansion.Expander.Process | calvin/csparser/codegen.py:422-470 | For definitions and blocks in any order, the blocks become their full unfolding from the original definitions, each instance with its own name and arguments; exactly the actor types that nothing is known about, in blocks and definitions as they are after expansion, are reported |
| Constants.ClosedIsComplete | calvin/csparser/codegen.py:915-925 | What is closed under references holds every constant whose chain reaches a literal |
| Constants.ReplaceConstants.Round | calvin/csparser/codegen.py:917-923 | A productive round leaves fewer constants unresolved, and an idle one proves that none can be resolved |
| Constants.ThreeEnds | calvin/csparser/codegen.py:916-932 | A chain of references reaches a literal, ends at an undefined name or comes back to a name it has passed: exactly one of these |
| Constants.ReplaceConstants.Resolve | calvin/csparser/codegen.py:910-933 | A constant gets a value exactly if its chain reaches that literal; every other one gets one message: an undefined name is named, a circle is called one, and some message is wrong if and only if some constant refers to one that is defined by an undefined name |
| Constants.MisreportedExactly | calvin/csparser/codegen.py:926-932 | Some constant is called circular although its chain ends at an undefined name, if and only if some constant refers to one whose own definition is an undefined name |
| Constants.NotCircular | calvin/csparser/codegen.py:926-932 | The shortest input with a wrong message: the first of two constants is misreported, the second is not |
| Constants.ConstantsAreOutermost | calvin/csparser/codegen.py:936-951 | Replacing names of constants everywhere is looking them up in an outermost scope, for all arguments at all levels, if and only if every parameter with the name of a constant has its value |
| Constants.ConstantHidesParameter | calvin/csparser/codegen.py:940-951 | An input where it matters: a parameter and a constant of the same name evaluate differently exactly if their values differ |
| PortNotation.UniqueInjective | calvin/csparser/codegen.py:186-189 | Generated names with different counts differ |
| PortRewrites.ExchangeStep | calvin/csparser/codegen.py:191-201 | Putting an actor with a generated name in the place of a literal or void keeps the connections that were written |
| PortRewrites.ReleaseStep | calvin/csparser/codegen.py:232-244 | So does putting the actor that a label declares, whatever other links use its name |
| PortRewrites.InsertStep | calvin/csparser/codegen.py:203-211 | Putting a generated actor between a link and its transformed port keeps the connections that were written |
| PortRewrites.ReleaseInsertStep | calvin/csparser/codegen.py:261-275 | So does putting one that a label declares |
| PortRewrites.ListsKeep | calvin/csparser/codegen.py:169-177 | Taking port lists apart keeps connections and labels |
| PortRewrites.PortRewrite.ImplicitOutPorts | calvin/csparser/codegen.py:231-244 | No literal is left as an outport |
| PortRewrites.PortRewrite.PortLists | calvin/csparser/codegen.py:153-177 | No port list is left |
| PortRewrites.PortRewrite.ImplicitInPorts | calvin/csparser/codegen.py:246-275 | No transformed port is left |
| PortRewrites.PortRewrite.VoidPorts | calvin/csparser/codegen.py:277-308 | No void is left, and no other shorthand either; the connections are as they were written, and of the void actors links leave only those of type `flow.Void` and arrive only at those of type `flow.Terminator`, both at the port `void` |
| PortRewrites.PortRewrite.Rewrite | calvin/csparser/codegen.py:1163-1181 | After all four rewrites there are only plain links; with the generated actors looked through, they are, as a multiset, the connections that were written; behind the actors of the script there are those declared by labels and one for every generated name, linked only at the ports of its type and on the side that this type has; no name of the script is generated |
| PortRewrites.RightByType | calvin/csparser/codegen.py:231-308 | A generated actor sends from `token`, `out` or `void` and receives at `in` or `void` as its type says, and in no other way |
| LinkCounts.CoalesceProperties.Process | calvin/csparser/codegen.py:652-683 | Every port is told how many positions in the list of links it has, and inward and outward counts both add up to the number of links |
| LinkCounts.LinksAtExactly | calvin/csparser/codegen.py:652-683 | The count of a port is the number of links that arrive there or leave from there |
| LinkCounts.AppInfo.Process | calvin/csparser/codegen.py:886-891 | Every outport lists its destinations in order, and the lists together are as long as there are links |
| LinkCounts.TargetsExactly | calvin/csparser/codegen.py:886-891 | The list of an outport has the dotted end of each of its links, in order |
| LinkCounts.NamesDiffer | calvin/csparser/codegen.py:888-889 | The joined name of a port tells actor and port, for actors without a dot |
| LinkCounts.PeersAreDestinations | calvin/csparser/codegen.py:652-683 | The number of peers that a port is told is the length of its list of destinations |
| LinkCounts.Deployer.WaitForAllConnections | calvin/runtime/north/appmanager.py:844-864 | The deployment goes on exactly once, with the last reply, knowing whether any connection failed |
| AstJson.RoundTrip | calvin/csparser/astnode.py:441-485 | A tree comes back from its stored form if and only if its classes are known to the decoder and no dictionary of data or attributes has a 'class' key |
| ParentPointers.RestoreParents.Visit | calvin/csparser/codegen.py:311-328 | In the whole tree every child points to the node it is a child of |
| ParentPointers.StoreAndLoad | calvin/csparser/astnode.py:441-485 | Storing, reading and restoring parents gives the same tree if and only if it is readable, and whatever is read has every child under its parent |
| RuleExpansion.GroundedUnfolds | calvin/csparser/dscodegen.py:41-68 | Substituting expanded bodies is the full recursive unfolding of the definitions |
| RuleExpansion.UnfoldSays | calvin/csparser/dscodegen.py:41-68 | For every runtime, the unfolded rule says what the rule with names says, when a name says what its definition does |
| RuleExpansion.CyclesAreNotExpanded | calvin/csparser/dscodegen.py:29-34 | A rule on a circle, or leading to one, is never among the expanded ones |
| RuleRounds.FinishedSchedule | calvin/csparser/dscodegen.py:20-38 | If nothing is left over, the rounds form a schedule without an idle round |
| RuleRounds.GivingUp | calvin/csparser/dscodegen.py:29-34 | A round without replacement that leaves something over only happens if there is no such schedule |
| RuleRounds.InOrderNeverGivesUp | calvin/csparser/dscodegen.py:29-34 | Rules that refer only to earlier ones are never given up on |
| RuleExpander.ExpandRules.Visit | calvin/csparser/dscodegen.py:46-68 | One visit substitutes what is expanded, and its flags tell whether there were names and whether one was replaced |
| RuleExpander.ExpandRules.Round | calvin/csparser/dscodegen.py:22-34 | A round replaces something exactly if it is a productive one, and then fewer names are left |
| RuleExpander.ExpandRules.Process | calvin/csparser/dscodegen.py:14-39 | Without errors, exactly for rules with a schedule that has no idle round, all applied rules are fully unfolded; otherwise errors are reported and they stay as they were; every expanded rule says of every runtime what it said with names |
| RuleExpander.ForwardReferenceGivesUp | calvin/csparser/dscodegen.py:29-34 | Two rules in the wrong order, with no circle, are given up on |
| RuleCompiler.MangleRaises | calvin/csparser/dscodegen.py:137-206 | Lowering fails on exactly the rules that still have names or negate more than a predicate |
| RuleCompiler.MangleKeepsMeaning | calvin/csparser/dscodegen.py:137-206 | Conjunctions of predicates, negated predicates and left-nested unions of predicates mean the same after lowering, for every runtime |
| RuleCompiler.MangleMeansExactly | calvin/csparser/dscodegen.py:137-206 | What every rule that can be lowered means afterwards: in unions the sign is lost, only a chain of unions to the left is continued, and other unions inside a union are skipped |
| RuleCompiler.PlainExactly | calvin/csparser/dscodegen.py:168-196 | Of the rules that name no predicate twice, no others do |
| RuleCompiler.NegationIsLost | calvin/csparser/dscodegen.py:168-196 | A union with a negated member holds for a runtime on which its requirement list fails |
| RuleCompiler.RightUnionIsLost | calvin/csparser/dscodegen.py:168-196 | So does a union with another on its right |
| DynOps.DynOp.Next | calvin/utilities/dynops.py:105-117 | Every operator: an answer is in its value and, for set operators, new; a pause means that everything known was answered and more may come; a stop that everything was answered and no more will come |
| DynOps.DynOp.UnionOp | calvin/utilities/dynops.py:147-170 | The same for Union, whatever its inputs have answered so far |
| DynOps.NoneLeft | calvin/utilities/dynops.py:205-257 | Although matched elements are deleted from the drawn sets, after matching everything that was drawn from all inputs has been answered |
| DynOps.DynOp.IntersectionOp | calvin/utilities/dynops.py:205-257 | When Intersection pauses or stops, it has answered exactly what every input has ever answered, and every input that has not stopped is paused |
| DynOps.DynOp.CollectRemoved | calvin/utilities/dynops.py:308-316 | A subtrahend is drawn until it pauses or stops, and counts as final only if no more can come |
| DynOps.DynOp.DifferenceOp | calvin/utilities/dynops.py:290-319 | Difference answers only what no subtrahend contains |
| DynOps.DynOp.NothingBeforeAllRemoved | calvin/utilities/dynops.py:290-319 | It has answered nothing, and drawn nothing, while a subtrahend may still grow |
| DynOps.DynOp.Arrive | calvin/utilities/dynops.py:604-631 | An arrival at any List keeps every operator above it right, whatever was answered before |
| DynOps.DynOp.Combine | calvin/utilities/dynops.py:128-319 | An operator over unshared inputs starts right |
| DynOps.DynOp.DecidedWhenFinal | calvin/utilities/dynops.py:628-655 | A value is decided exactly when all Lists below are final |
| DynOps.DynOp.DecidedIsAlgebra | calvin/utilities/dynops.py:128-319 | A decided value is that of the set expression over the Lists |
| DynOps.DynOp.StoppedIsAlgebra | calvin/utilities/dynops.py:128-319 | What an operator has answered when it stops is the value of its set expression |
| RequirementMatching.BuildUnionMatch | calvin/utilities/requirement_matching.py:131-142 | The operator of a union group combines one fresh List for every predicate in it |
| RequirementMatching.BuildMatch | calvin/utilities/requirement_matching.py:101-130 | The tree is the Intersection of the positive requirements, less every negative one, over unshared leaves |
| RequirementMatching.TreeMeetsRequirements | calvin/utilities/requirement_matching.py:101-130 | Its value is the set of runtimes for which all requirements hold if one is positive, and everything otherwise |
| RequirementMatching.ReqMatch.CollectPlacements | calvin/utilities/requirement_matching.py:143-182 | Placements only grow; it is done exactly if nothing more can come, sets the timer otherwise, 200 milliseconds or at once after many calls; once done it has told the callback all that was answered, or the nodes that are known then if anything will do, and never changes the result nor invokes the callback again |
| RequirementMatching.ReqMatch.AllKnownAreFound | calvin/utilities/requirement_matching.py:170-179 | If nothing positive is asked, the callback is given exactly the nodes known at the end, with success if there are any |
| RequirementMatching.ReqMatch.CompleteIsDecided | calvin/utilities/requirement_matching.py:143-182 | Nothing more can come exactly when every predicate has all its answers |
| RequirementMatching.ReqMatch.FoundMeetRequirements | calvin/utilities/requirement_matching.py:101-182 | After any order of arrivals, the runtimes found are those that meet all requirements |
| RequirementMatching.ReqMatch.FoundRightExactly | calvin/utilities/requirement_matching.py:101-182 | Among the known runtimes, those found are those that meet all requirements if and only if some requirement is positive or no known runtime has anything that is to be excluded |
| RequirementMatching.OnlyNegative | calvin/utilities/requirement_matching.py:101-130 | With one negative requirement and nothing else, a runtime that it excludes is found |
| RequirementMatching.AffirmsExactly | calvin/csparser/dscodegen.py:137-206 | A rule affirms something exactly if its requirement list has a positive entry |
| RequirementMatching.FoundSatisfyRule | calvin/utilities/requirement_matching.py:70-182 | From rule to placements: for plain rules that affirm something, exactly the runtimes of which the rule is true are found |
| RequirementMatching.FoundSatisfyLowered | calvin/utilities/requirement_matching.py:70-182 | The same for every rule that can be lowered and affirms something: those of which the lowered rule is true are found |
| DestroyScan.UpdateKeepsPartition | calvin/runtime/north/appmanager.py:100-105 | Filing an actor keeps the node lists a partition of what was found |
| DestroyScan.CompleteMeansNothingOpen | calvin/runtime/north/appmanager.py:107-108 | The comparison of sizes holds exactly if no actor is unscanned and no lookup is open, as long as every actor is in one place |
| DestroyScan.ReplyKeepsExactly | calvin/runtime/north/appmanager.py:272-292 | An answer about replicas keeps every actor in one place, once, if and only if besides the original it names only new replicas, each once; any other answer leaves a surplus |
| DestroyScan.SurplusStays | calvin/runtime/north/appmanager.py:237-270 | A surplus never goes away |
| DestroyScan.SurplusIsNeverDone | calvin/runtime/north/appmanager.py:107-108 | With a surplus, the comparison of sizes holds only while some lookup is open |
| DestroyScan.ToldExactly | calvin/runtime/north/appmanager.py:237-270 | An answer about an actor files it at its node and asks for its replicas if that was wanted; without one it is asked again ten times and then given up |
| DestroyScan.ReplyExactly | calvin/runtime/north/appmanager.py:272-292 | An answer about replicas settles one question; each replica that it names is then filed if it is local, and looked up once otherwise |
| AppDestroy.AppManager.Destroy | calvin/runtime/north/appmanager.py:201-235 | Starting anew, local actors are filed, all others have exactly one lookup open, and replicas are asked for once for every local replicated actor |
| AppDestroy.AppManager.DestroyActorCb | calvin/runtime/north/appmanager.py:237-270 | An answer or a retry keeps every actor in exactly one place: filed once, or with one lookup open; a remote original that is replicated has its replicas asked for before anything is destroyed, and one that is not found is looked up ten times more; if some actor was counted too often it stays so, and the destruction is not carried out with nothing open |
| AppDestroy.AppManager.ReplicasCb | calvin/runtime/north/appmanager.py:272-292 | The same for an answer about replicas: each named one is filed or looked up, every actor stays in one place exactly if only new ones are named, and then the destruction is carried out as soon as it should be |
| AppDestroy.AppManager.DestroyFinal | calvin/runtime/north/appmanager.py:294-330 | Once only, local actors are destroyed and every other node gets one request with its actors, also the origin of the application if it has no actors |
| AppDestroy.RequestsExactly | calvin/runtime/north/appmanager.py:301-320 | Every other node that has actors is sent exactly one request, with its actors |
| AppDestroy.MissingExactly | calvin/runtime/north/appmanager.py:332-353 | An actor is reported missing exactly if the answer kept for some node lists it |
| AppDestroy.AppManager.DestroyReply | calvin/runtime/north/appmanager.py:332-353 | One answer settles the entry of its node and no other |
| AppDestroy.AppManager.DestroyFinalCb | calvin/runtime/north/appmanager.py:332-353 | The callback is invoked with the last answer only |
| AppDestroy.Application.AllArePlaced | calvin/runtime/north/appmanager.py:294-330 | Once the final destruction is reached, the node lists partition all actors, replicas included, no question is open, and every replicated original has had its replicas asked for and answered |
| AppDestroy.Application.Reported | calvin/runtime/north/appmanager.py:332-353 | After all answers there was exactly one callback, successful exactly if everything was found and every node succeeded, and it names the actors that were not found |
| AppDestroy.LostReplica | calvin/runtime/north/appmanager.py:237-270 | With a replica that is never found, nothing is outstanding and nothing has been destroyed |
| AppDestroy.NamedTwice | calvin/runtime/north/appmanager.py:272-292 | With an answer that names an actor of the application as a replica, the destruction is carried out while another actor is still being looked for, which is left out |
| SimultaneousJoin.RunKeepsInv | calvin/runtime/north/calvin_network.py:383-415 | Every run of starts, finishes, closings and disconnects at the two ends, in any order, keeps their invariant |
| SimultaneousJoin.HighestIsKept | calvin/runtime/north/calvin_network.py:383-415 | Once the connection of the higher node has finished at an end, its link uses it in every later state |
| SimultaneousJoin.EndsAgree | calvin/runtime/north/calvin_network.py:383-415 | With nothing pending both ends use the same connection, and the other one is closed at both |
| JoinRuns.FinishOne | calvin/runtime/north/calvin_network.py:364-441 | A finished connection at a network is one at the end of the model that it mirrors, and what the network closes, now or later, is what the model closes |
| JoinRuns.Run | calvin/runtime/north/calvin_network.py:364-441 | Every run of two networks that connect to each other follows the model: where the connection of the higher node has finished the link uses it ever after, and with nothing pending both links use the same connection |
| JoinCallbacks.PopStep | calvin/runtime/north/calvin_network.py:424-439 | Invoking everything in line for a uri keeps every callback accounted for: waiting once, called once or dropped |
| CalvinNetworking.ReplyTable.Settle | calvin/runtime/north/calvin_network.py:87-128 | A reply or a timeout, whichever comes first, invokes the callback once, and a later one finds nothing |
| CalvinNetworking.CalvinLink.SendWithReply | calvin/runtime/north/calvin_network.py:130-138 | The request with its id is sent, or kept while the peer sleeps, exactly once, and its callback and its timer are registered together |
| CalvinNetworking.CalvinLink.FlushBufferedMsgs | calvin/runtime/north/calvin_network.py:162-166 | What was kept while the peer slept is sent in order, once, to the direct peer |
| CalvinNetworking.CalvinNetwork.Join | calvin/runtime/north/calvin_network.py:308-362 | Every callback is accounted for; those invoked at once are told of success |
| CalvinNetworking.CalvinNetwork.JoinOne | calvin/runtime/north/calvin_network.py:334-362 | A connection is made only if none to that uri or peer is there or on its way, for a schema, the text before the first colon, that some transport has; otherwise the callback is invoked at once or gets in line |
| CalvinNetworking.CalvinNetwork.JoinFinished | calvin/runtime/north/calvin_network.py:364-441 | The callbacks in line for the uri and then those for the peer are invoked, each once, with success exactly if there is a connection; without one, those for the uri, in order, are told of failure |
| CalvinNetworking.CalvinNetwork.PlaceLink | calvin/runtime/north/calvin_network.py:384-417 | Which connection a link uses afterwards, and which reply table |
| CalvinNetworking.CalvinNetwork.JoinFailed | calvin/runtime/north/calvin_network.py:443-448 | Exactly the callbacks in line for the uri are told of the failure, each with that uri, and none of success; a uri that nobody waits for is an error |
| JoinRuns.DisconnectOne | calvin/runtime/north/calvin_network.py:636-648 | A disconnect at a network is a disconnect at the end of the model that it mirrors: the link is gone if it used that connection, and stays otherwise |
| CalvinNetworking.CalvinNetwork.AtMostOnce | calvin/runtime/north/calvin_network.py:334-448 | In every state no callback has been invoked twice, and none that was invoked is still in line |
| Aggregation.ActorConnect.ActorConnected | calvin/runtime/north/actormanager.py:475-496 | In any order of replies the callback is invoked once: with failure at the first failed reply, or with success after the last if all succeeded |
| Aggregation.DestroyRequest.ActorDestroyed | calvin/runtime/north/appmanager.py:387-399 | The callback comes with the last reply only, and gets exactly the actors that failed |
| Aggregation.Migration.MigratedCb | calvin/runtime/north/appmanager.py:576-585 | The callback comes when no actor is open any more, with success exactly if all were migrated |
| IndexCodec.UnescapeEscape | calvin/utilities/attribute_resolver.py:258-284 | Unescaping undoes escaping, for every string |
| IndexCodec.PiecesOfBody | calvin/utilities/attribute_resolver.py:279 | The split with its look-behind of two characters yields one piece per item and one more for every misread slash |
| IndexCodec.EncodeIndex | calvin/utilities/attribute_resolver.py:250-268 | Both forms of the index: a list of levels that starts with `node` and with `resource` exactly for the two resources, else `attribute`, and whose other levels unescape to the items; and these levels, each behind a slash |
| IndexCodec.IndexIsSlashed | calvin/utilities/attribute_resolver.py:250-268 | The two forms agree, and the prefix is that of a resource exactly if `cpuAvail` or `memAvail` is among the items |
| IndexCodec.Split | calvin/utilities/attribute_resolver.py:279 | Scanning from the left finds exactly the separators, and the pieces with slashes between them are the text |
| IndexCodec.DecodeIndex | calvin/utilities/attribute_resolver.py:271-288 | Decoding with the removal of either prefix |
| IndexCodec.RoundTrip | calvin/utilities/attribute_resolver.py:250-288 | Decoding undoes encoding, up to empty texts, if and only if the list is readable: not empty, no first item that starts with a slash, no slash right behind a backslash |
| IndexCodec.EncodeInjective | calvin/utilities/attribute_resolver.py:250-268 | Different lists have different indexes, once empty and absent items are identified |
| IndexCodec.NotReadable | calvin/utilities/attribute_resolver.py:271-288 | Two lists that do not come back |

## Left out

Graph compiler:

- CodeGeneration.GenerateCode: port properties are neither collected nor checked, and the consistency check is a condition on what the rewrites leave, not a pass with messages; components are visited in some order, and definitions before the main block.
- Flatten.Flatten.Process: children of a block are split by kind, keeping the order among links and among actors only; links are told apart by position; port properties are not moved along; the script's name is an identifier.
- ComponentExpansion.Expander.Process: references between components are acyclic (the source does not return otherwise); definitions are updated in place, but a block that is visited is a value, and its instances and actors are kept apart; cached metadata and the sharing of argument nodes between copies are not modelled, nor are actors from the store that are components.
- Constants.ReplaceConstants.Resolve: constants have distinct names.
- PortRewrites.PortRewrite.Rewrite: names in links, labels among them, are those that the grammar accepts, which do not start with an underscore; warnings are not modelled.
- AstJson.RoundTrip: the order of keys in dictionaries and repeated keys are not modelled; a node has no parent in its stored form.
- ParentPointers.StoreAndLoad: nodes in attributes other than the children keep no parent, as in the source.
- LinkCounts.PeersAreDestinations: actor names have no dot, which the grammar of the language does not allow.
- Collecting, merging and checking of port properties, signatures and error positions.
- The shallow copy of `Node.clone`: trees are copied with everything below, so lists of properties shared between copies of one port are not seen.
- The parser and the store of actors.

Deploy rules:

- RuleExpander.ExpandRules.Process: rule names are distinct; a rule that is put in the place of its name is a value, while the source puts in a copy that shares its parts with the expanded rule (calvin/csparser/dscodegen.py:67), which makes no difference because expanded rules hold no names and are not changed any more.
- RuleCompiler.MangleKeepsMeaning: predicate arguments are compared as they are written.
- DynOps.DynOp.Combine: an Infinite element below an Intersection is not treated in a special way; an Intersection without inputs is the only source of it here, and only as the first input of a Difference or on its own. `Map`, `Chain`, `Collect`, `auto_final` and the passing on of triggers are left out; a consumer is called again after an arrival.
- RequirementMatching.BuildMatch: operations that raise an error and are dropped from the list, and requirements that are not a list, are not modelled; the look-up behind a predicate is a List that is filled at any time.
- Weighted placement, and migration to the placements that were found.

Runtime protocols:

- AppDestroy.AppManager.Destroy: the registry answers every question once, and later; a destruction is not started while questions of an earlier one are open; the clean-up of the replica registry is left out.
- AppDestroy.AppManager.DestroyFinal: destroying a local actor does not fail, and other nodes answer after it has returned; if sending the last request fails at once while all other answers are in, the source invokes the callback twice.
- SimultaneousJoin.EndsAgree: two nodes, at most one connection from each, no failures of the network besides the disconnects that follow from closing, and no sleeping peers.
- CalvinNetworking.CalvinNetwork.PlaceLink: node identifiers are numbers, as only their order matters; routes are not modelled.
- CalvinNetworking.CalvinNetwork.JoinFinished: callbacks do not call back into the network.
- CalvinNetworking.CalvinNetwork.JoinOne: a callback for a schema that no transport supports is dropped, as in the source.
- Aggregation.ActorConnect.ActorConnected: with no ports at all the callback is never invoked, as in the source.
- Transports, the distributed storage, timers, logging, security and the queues between ports.
