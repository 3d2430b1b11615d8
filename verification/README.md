# Interprocedural passes of the Maple middle end, modelled in Dafny

The project models four passes of `src/mapleall/maple_ipa` and proves what they are for.

* **Call graph** (`CallDigraph`, `SccState`, `CallGraph`, `SccOrder`). The depth-first search that finds strongly connected
  components (SCCs), the topological sort of the SCCs, the removal of file-static functions nobody can call, and the
  compilation list. `CallGraphBuild.CallGraph.BuildCallGraph` states the result from call edges to list.
* **Escape analysis** (`Escape*`, `Chains`). The connection graph of objects, references, fields and arguments, with its caches
  `in`, `pointsTo` and `pointsBy` and its escape status. Main results: whatever an object of the class does, its graphs form
  a run, in which statuses never fall and, before trimming, points-to sets are exactly reachability (`EscapeRuns`); a callee
  graph is embedded as a homomorphism by a walk that terminates on cyclic graphs (`EscapeMerge`), and every status there is
  afterwards has a cause (`EscapeBlame`); trimming is a quotient (`EscapeTrimmed`).
* **Inliner** (`Inline*`, `Inliner`, `NestedTry`, `PuStatics`, `MarkInline`). `InlineIR` gives a small language with loops and
  arbitrary jumps a meaning: a run has fuel, of which each further loop round and each jump backwards takes one unit, so that
  the caller before and after inlining can be compared state by state, runs that never end included. `InlineMeaning` proves
  that they end alike, `InlineFresh` that they do so for callees that do not look at uninitialised locals even if calls start from
  fresh frames, `InlineLabels` that labels stay in order. Beside them stand the flattening of try regions, the decision
  by cost, the conversion of pu-static symbols and the marking of functions that must not be inlined.
* **Return-non-null propagation** (`ReturnNull`). The flags, the state machine over return statements, the proof that no
  run of a marked function returns null, and which functions must be marked.

The passes change their data in place, and so do the classes here; each method is proved against predicates or functions on
immutable values (a snapshot, the vector of nodes, statement lists), about which the lemmas are.

Three properties one might expect do not hold of the code, and for each the exact condition is proved.

* A remembered inlining cost decides wrongly for larger thresholds (`InlineEdits.LargerThresholdIsWrong`), after the callee's
  pu-static variables have become global because it was inlined (`InlineMemory.ConversionGoesUnnoticed`), and after a call of an
  empty function has been removed from it (`InlineMemory.RemovalGoesUnnoticed`). `InlineEdits.RememberedAfterEdits` says when it
  is right, `InlineEdits.AlikeForAllBodies` that these are all the cases, apart from the measuring of a saved body.
* In the initial value of a pu-static symbol the address of a pu-static symbol that comes later in the table is lost
  (`PuStatics.ForwardAddressIsLost`), and so is any address of one inside an array or a structure
  (`PuStatics.AddressInArrayIsLost`). `PuStatics.InitKeptExactly` says when an initial value is kept.
* The one pass that marks functions not to be inlined misses callers inside an SCC (`MarkInline.CycleIsMissed`).
  `MarkInline.ExactForAllSeeds` says for which orders it does not.

Besides, the inliner stops on some callees with an early return (`InlineBody.GivesUpExactly`).

## Model

| member | source | states |
|---|---|---|
| CallGraphBuild.CallGraph.FindRootNodes | src/mapleall/maple_ipa/src/call_graph.cpp:1377-1387 | the roots are the nodes without callers, in the order of the node map, each once |
| SccState.EnterStarts | src/mapleall/maple_ipa/src/call_graph.cpp:1669-1679 | entering a node keeps the search invariant and starts the record of what its visit must achieve |
| SccState.KnownCallee | src/mapleall/maple_ipa/src/call_graph.cpp:1695-1698 | a callee that was visited before can only lower the lowest order if it is still on the stack; then, too, everything the node reaches on the stack is covered |
| SccState.NewCallee | src/mapleall/maple_ipa/src/call_graph.cpp:1690-1694 | after the recursive visit of a callee the node may take over its lowest order, and its record is complete up to that callee |
| SccState.StayOnStack | src/mapleall/maple_ipa/src/call_graph.cpp:1702 | a node whose lowest order is smaller stays on the stack, linked to an unfinished node further down |
| SccState.CloseScc | src/mapleall/maple_ipa/src/call_graph.cpp:1702-1714 | when visiting order and lowest order agree, the popped part of the stack is exactly one class of mutually reaching nodes, and the search invariant holds again |
| SccState.SccsClosedUnderReach | src/mapleall/maple_ipa/src/call_graph.cpp:1702-1714 | whatever an SCC reaches has an SCC with no larger number |
| CallGraphBuild.CallGraph.BuildSCCDFS | src/mapleall/maple_ipa/src/call_graph.cpp:1669-1717 | visits exactly what the node reaches and was not visited, and leaves complete SCCs behind; terminates because unvisited nodes get fewer |
| CallGraphBuild.CallGraph.PopScc | src/mapleall/maple_ipa/src/call_graph.cpp:1702-1716 | pops one SCC off the stack |
| CallGraphBuild.CallGraph.SetupCallees | src/mapleall/maple_ipa/src/call_graph.cpp:1645-1657 | the callee links of an SCC are exactly the other SCCs its members call |
| CallGraphBuild.CallGraph.SetupCallers | src/mapleall/maple_ipa/src/call_graph.cpp:1658-1666 | the caller links of an SCC are exactly the other SCCs that call its members |
| CallGraphBuild.CallGraph.VisitAll | src/mapleall/maple_ipa/src/call_graph.cpp:1728-1740 | visiting from the roots and then from what is left gives every reached node exactly one SCC; two nodes share one exactly if each reaches the other |
| CallGraphBuild.CallGraph.BuildSCC | src/mapleall/maple_ipa/src/call_graph.cpp:1721-1753 | the SCCs, their links and their topological order |
| CallGraphBuild.ManyAreRecursive | src/mapleall/maple_ipa/src/call_graph.cpp:1535-1537 | members of an SCC with several members lie on a call cycle |
| CallGraphBuild.OneIsRecursive | src/mapleall/maple_ipa/src/call_graph.cpp:1538-1550 | the only member of an SCC lies on a non-empty call cycle exactly if it calls itself |
| CallGraphBuild.CallGraph.HasRecursion | src/mapleall/maple_ipa/src/call_graph.cpp:1531-1551 | true exactly if some member calls itself, directly or through others |
| SccOrder.SCCTopologicalSort | src/mapleall/maple_ipa/src/call_graph.cpp:1755-1784 | lists every SCC once, every caller before its callees, although a callee is queued as soon as its callers are queued rather than processed |
| SccOrder.NothingWaits | src/mapleall/maple_ipa/src/call_graph.cpp:1771-1779 | with acyclic links no SCC is left waiting when the queue has been worked off |
| SccOrder.ListedIsTopological | src/mapleall/maple_ipa/src/call_graph.cpp:1755-1784 | a list in which every SCC follows its callers, and that misses none, is a topological order |
| SccOrder.StaysIsReached | src/mapleall/maple_ipa/src/call_graph.cpp:1407-1438 | an SCC that stays is pinned or reached over callee links from a pinned one |
| SccOrder.ReachedStays | src/mapleall/maple_ipa/src/call_graph.cpp:1407-1438 | everything reached from a pinned SCC stays |
| SccOrder.RemoveFileStaticSCC | src/mapleall/maple_ipa/src/call_graph.cpp:1407-1438 | one forward pass leaves exactly the SCCs that are pinned or reached from a pinned SCC, in their old order |
| SccOrder.TopologicalNoBackCalls | src/mapleall/maple_ipa/src/call_graph.cpp:1755-1784 | in a topological order no SCC calls an earlier one |
| CallGraphBuild.CallGraph.PinnedSccs | src/mapleall/maple_ipa/src/call_graph.cpp:1414-1424 | an SCC is pinned exactly if a member is not static or has its address taken |
| CallGraphBuild.CallGraph.RemoveFileStaticSccs | src/mapleall/maple_ipa/src/call_graph.cpp:1407-1438 | the same on the call graph itself |
| CallGraphBuild.CallGraph.SortCGNodes | src/mapleall/maple_ipa/src/call_graph.cpp:1515 | the members of an SCC in some order |
| CallGraphBuild.CallGraph.SetCompilationFunclist | src/mapleall/maple_ipa/src/call_graph.cpp:1509-1529 | both lists are equal and hold callees before callers unless they call each other, whatever the order inside SCCs; of the nodes of the SCCs that are left they hold, once each, every function that is not native, a native one exactly outside IPA and with a body, and no node without a function object |
| CallGraphBuild.CallGraph.GenCallGraph | src/mapleall/maple_ipa/src/call_graph.cpp:1359-1374 | which functions are left: the reached ones or, in a C module, those that a function visible from outside reaches |
| CallGraphBuild.CallGraph.BuildCallGraph | src/mapleall/maple_ipa/src/call_graph.cpp:1477-1484 | from call edges to compilation list: every wanted function that is not native is listed, a wanted native one exactly outside IPA and with a body, nothing else, each once, callees before callers outside cycles |
| CallGraphBuild.CallGraph.NeededIsReached | src/mapleall/maple_ipa/src/call_graph.cpp:1407-1438 | reachability of functions over calls and of SCCs over callee links agree |
| EscapeSpread.ServePred | src/mapleall/maple_ipa/src/ea_connection_graph.cpp:108-110 | serving one more predecessor keeps the record of the propagation: points-to sets only grow, by what is justified, and have been handed on except to the predecessors still to come |
| EscapeSpread.ServeSucc | src/mapleall/maple_ipa/include/ea_connection_graph.h:338-346 | the same for escape status |
| EscapeGraph.EAConnectionGraph.UpdatePointsTo | src/mapleall/maple_ipa/src/ea_connection_graph.cpp:99-112 | after propagation every grown set has been handed on along all `in` edges, nothing arrives that was not reachable, and `pointsBy` grew along; true exactly if the objects were new; the re-entrant recursion terminates because missing points-to pairs get fewer |
| EscapeGraph.EAConnectionGraph.UpdateEAStatus | src/mapleall/maple_ipa/include/ea_connection_graph.h:338-346 | raises exactly what lies on the way from the node, over fields of objects and `out` edges of other nodes, to exactly the new status, until the status no longer falls along an edge; true exactly if it was lower |
| EscapeSteps.ClosedAlong | src/mapleall/maple_ipa/src/ea_connection_graph.cpp:42-59 | a node points to everything that whatever it reaches points to |
| EscapeSteps.StatusToPointee | src/mapleall/maple_ipa/src/ea_connection_graph.cpp:735-738 | the status does not fall from a node to what it points to |
| EscapeSteps.RaiseKeepsInv | src/mapleall/maple_ipa/include/ea_connection_graph.h:338-346 | raising a status keeps the invariant of the graph |
| EscapeSteps.EdgeKeepsInv | src/mapleall/maple_ipa/src/ea_connection_graph.cpp:53-56 | adding an edge and propagating keeps the invariant |
| EscapeSteps.EdgeKeepsExact | src/mapleall/maple_ipa/src/ea_connection_graph.cpp:53-56 | before any trimming points-to sets are again exactly the reachable objects, and `pointsBy` and `in` the exact inverses |
| EscapeCreate.CreateKeepsInv | src/mapleall/maple_ipa/src/ea_connection_graph.cpp:515-622 | creating a node keeps the invariant |
| EscapeCreate.CreateKeepsExact | src/mapleall/maple_ipa/src/ea_connection_graph.cpp:515-622 | creating a node keeps points-to sets exact |
| EscapeAddOut.AddedKeepsInv | src/mapleall/maple_ipa/src/ea_connection_graph.cpp:42-59 | adding an `out` node keeps the invariant and exactness; afterwards the node points to what the new one points to, or both escape globally |
| EscapeAddOut.AddedGainsAlone | src/mapleall/maple_ipa/src/ea_connection_graph.cpp:42-59 | when nobody leads to the node, no other points-to set changes |
| EscapeGraph.EAConnectionGraph.AddOutNode | src/mapleall/maple_ipa/src/ea_connection_graph.cpp:42-59 | all cases of the operation with its result and the update flag: a known edge, a globally escaping node that absorbs the new one, and a new edge; keeps the invariant |
| EscapeGraph.EAConnectionGraph.CreateObjectNode | src/mapleall/maple_ipa/src/ea_connection_graph.cpp:515-529 | a new object points to itself and is pointed to by itself |
| EscapeGraph.EAConnectionGraph.CreateReferenceNode | src/mapleall/maple_ipa/src/ea_connection_graph.cpp:547-565 | a new reference points nowhere |
| EscapeGraph.EAConnectionGraph.CreateActualNode | src/mapleall/maple_ipa/src/ea_connection_graph.cpp:575-602 | a new argument node points nowhere |
| EscapeGraph.EAConnectionGraph.CreateFieldNode | src/mapleall/maple_ipa/src/ea_connection_graph.cpp:604-622 | a new field is listed by its object |
| EscapeGraph.EAConnectionGraph.GetOrCreateFieldNodeFromIdx | src/mapleall/maple_ipa/src/ea_connection_graph.cpp:1051-1058 | the object has the field afterwards; the node for all fields, if there is one, stands for every field |
| EscapeAddOut.GlobalNodesOk | src/mapleall/maple_ipa/src/ea_connection_graph.cpp:500-513 | the three global nodes satisfy the invariant with exact points-to sets |
| EscapeGraph.EAConnectionGraph.InitGlobalNode | src/mapleall/maple_ipa/src/ea_connection_graph.cpp:500-513 | the calls of the source produce exactly those three nodes |
| EscapeGraph.EAConnectionGraph.PropogateEAStatus | src/mapleall/maple_ipa/src/ea_connection_graph.cpp:721-744 | changes nothing: no status is raised, the asserted flag stays unset, and the loop runs once |
| EscapeRuns.PointsToIsReachability | src/mapleall/maple_ipa/src/ea_connection_graph.cpp:42-59 | in every graph of every run, until something is trimmed, a node points to exactly the objects it reaches over `out` edges, and `pointsBy` and `in` are the inverses |
| EscapeRuns.StatusNeverFalls | src/mapleall/maple_ipa/src/ea_connection_graph.cpp:61-65 | in every graph of every run, with trimming and merging anywhere in it, the status never falls along an edge, to a field, or to a pointee |
| EscapeRuns.GlobalEscapeIsClosed | src/mapleall/maple_ipa/src/ea_connection_graph.cpp:211-216 | whatever can be reached from a globally escaping node over edges, fields and points-to sets, in any number of steps, escapes globally |
| EscapeRuns.TraceIsRun | src/mapleall/maple_ipa/src/ea_connection_graph.cpp:868-918 | the graphs an object goes through, in creating nodes, adding edges, merging and trimming, form such a run |
| EscapeMerge.WalkedIsNoMoreWork | src/mapleall/maple_ipa/src/ea_connection_graph.cpp:999-1025 | the walk over two cyclic graphs terminates: callee objects without images, and then open pairs, never get more, although caller nodes are added |
| EscapeMerge.PairStep | src/mapleall/maple_ipa/src/ea_connection_graph.cpp:1017-1022 | recording one more pair is a step of the walk and leaves fewer open pairs |
| EscapeMerge.PhantomStep | src/mapleall/maple_ipa/src/ea_connection_graph.cpp:1010-1014 | a phantom is made for a callee object without images and is its image from then on: at most one for each callee object |
| EscapeMerge.LinkKeeps | src/mapleall/maple_ipa/src/ea_connection_graph.cpp:1005-1007 | linking a node nobody leads to changes only that node |
| EscapeMerge.PairCompleted | src/mapleall/maple_ipa/src/ea_connection_graph.cpp:1031-1049 | a pair whose fields are done and whose status is inherited is complete |
| EscapeBlame.RaiseAccounted | src/mapleall/maple_ipa/src/ea_connection_graph.cpp:1028-1035 | a status that is inherited from a globally escaping callee object has a cause, and so has every status it is handed on to |
| EscapeBlame.FieldAccounted | src/mapleall/maple_ipa/src/ea_connection_graph.cpp:1051-1058 | a field that is made for an image is one its callee object has, and its status is that of the object |
| EscapeBlame.AddedAccounted | src/mapleall/maple_ipa/src/ea_connection_graph.cpp:981-997 | a link that the callee graph asks for accounts for every status it raises, also when a globally escaping node absorbs it |
| EscapeBlame.PhantomAccounted | src/mapleall/maple_ipa/src/ea_connection_graph.cpp:1010-1014 | so do a phantom and its link: it has the status of the node it is made for |
| EscapeBlame.MatchGrounds | src/mapleall/maple_ipa/src/ea_connection_graph.cpp:999-1025 | caller and callee objects that are paired are pointed to by nodes that are reached in the same way from arguments or results |
| EscapeGraph.EAConnectionGraph.AddMaps2Object | src/mapleall/maple_ipa/src/ea_connection_graph.cpp:920-926 | records one more image |
| EscapeGraph.EAConnectionGraph.UpdateNodes | src/mapleall/maple_ipa/src/ea_connection_graph.cpp:999-1025 | afterwards every pointee of the callee node has images, among them all pointees of the caller node, and all pairs are complete except those under way; points-to sets that are iterated over do not change; and whatever has changed so far is accounted for: each status has a cause, each link was asked for by the callee graph, images correspond to what they stand for |
| EscapeGraph.EAConnectionGraph.UpdateCallerWithCallee | src/mapleall/maple_ipa/src/ea_connection_graph.cpp:1028-1049 | the pair is complete: global escape is inherited, every field exists, and what the fields point to is mapped; and, by the account that is kept, no status is raised without a cause |
| EscapeGraph.EAConnectionGraph.UpdateCallerNodes | src/mapleall/maple_ipa/src/ea_connection_graph.cpp:949-961 | after the node phase every pair is complete and every looked-up callee object has images |
| EscapeMerge.NodePhaseEnds | src/mapleall/maple_ipa/src/ea_connection_graph.cpp:949-961 | the node phase leaves everything ready for the edge phase: fields exist on all images and their pointees are mapped |
| EscapeGraph.EAConnectionGraph.UpdateCallerEdgesInternal | src/mapleall/maple_ipa/src/ea_connection_graph.cpp:981-997 | neither check can fail; afterwards the field of every image of one object leads to every image of the other, or field and image both escape globally |
| EscapeGraph.EAConnectionGraph.UpdateCallerEdges | src/mapleall/maple_ipa/src/ea_connection_graph.cpp:964-978 | the edge phase makes the map a homomorphism on the mapped part of the callee graph |
| EscapeGraph.EAConnectionGraph.UpdateCallerRetNode | src/mapleall/maple_ipa/src/ea_connection_graph.cpp:928-946 | the call site result leads to all images of what the callee result points to; its actual node still has exactly one `out` node |
| EscapeMerge.AfterResult | src/mapleall/maple_ipa/src/ea_connection_graph.cpp:905-909 | what the phases achieve together |
| EscapeGraph.EAConnectionGraph.EmbedCallee | src/mapleall/maple_ipa/src/ea_connection_graph.cpp:905-909 | the map is a homomorphism, images of globally escaping objects escape globally, arguments are mapped, results are linked, and there is at most one phantom for each callee object; and nothing else happens, as `MergedIsExplained` says; the update flag is set exactly if the graph has changed |
| EscapeBlame.MergedIsExplained | src/mapleall/maple_ipa/src/ea_connection_graph.cpp:999-1058 | exactly what the embedding does to statuses: for each status, a node has at least that status afterwards exactly if it is led to, over fields, edges and links asked for by the callee graph, from a node that had it before or stands for a globally escaping callee object; all links asked for are there, new edges are among them, new fields are those of callee objects, and objects stand only for what is reached in the same way |
| EscapeBlame.NothingNewEscapes | src/mapleall/maple_ipa/src/ea_connection_graph.cpp:1028-1030 | if only global nodes had a status, nothing stands for a globally escaping callee object, and the global nodes play no part, then no other node gets that status |
| EscapeBlame.AbsorbedLeavesNoEdge | src/mapleall/maple_ipa/src/ea_connection_graph.cpp:42-52 | why links have to be counted beside edges: a globally escaping node hands its status on and leaves no edge |
| EscapeGraph.EAConnectionGraph.MergeCG | src/mapleall/maple_ipa/src/ea_connection_graph.cpp:868-918 | the same between two trimmings; without a summary everything the arguments point to escapes, with what it reaches, and nothing else; true exactly if more than the first trimming has changed the graph |
| EscapeGraph.EAConnectionGraph.UpdateEACGFromCaller | src/mapleall/maple_ipa/src/ea_connection_graph.cpp:751-781 | what arguments point to that reach something globally escaping in the caller escapes in the callee, with what it reaches, and nothing else does |
| EscapeTrim.ObjectTrimmed | src/mapleall/maple_ipa/src/ea_connection_graph.cpp:185-209 | replacing an object is one step of the quotient |
| EscapeTrim.RefTrimmed | src/mapleall/maple_ipa/src/ea_connection_graph.cpp:284-306 | replacing a reference is one step of the quotient |
| EscapeTrim.ActualTrimmed | src/mapleall/maple_ipa/src/ea_connection_graph.cpp:373-382 | cutting off an argument is one step of the quotient |
| EscapeTrim.FieldTrimmed | src/mapleall/maple_ipa/src/ea_connection_graph.cpp:424-465 | replacing or freezing a field is one step of the quotient |
| EscapeTrim.OwnersWentFirst | src/mapleall/maple_ipa/src/ea_connection_graph.cpp:436-444 | when a field has its turn, its globally escaping objects are gone; it is deleted exactly if none is left |
| EscapeGraph.EAConnectionGraph.ReplaceByGlobalNode | src/mapleall/maple_ipa/src/ea_connection_graph.cpp:185-465 | the case distinction by kind; the asserted facts about neighbours hold |
| EscapeGraph.EAConnectionGraph.TrimGlobalNode | src/mapleall/maple_ipa/src/ea_connection_graph.cpp:477-498 | one pass over the nodes computes the quotient and keeps the invariant |
| EscapeTrimmed.TrimIsQuotient | src/mapleall/maple_ipa/src/ea_connection_graph.cpp:477-498 | a surviving node keeps kind and status, and its non-empty points-to set is the old one with every globally escaping object replaced by the global object |
| EscapeTrimmed.TrimKeepsInv | src/mapleall/maple_ipa/src/ea_connection_graph.cpp:477-498 | the trimmed graph satisfies the invariant; nothing refers to a deleted node |
| InlineRewrite.ThreePasses | src/mapleall/maple_ipa/src/inline.cpp:494-552 | moving symbols, moving labels and rewriting returns, one after the other, is the rewriting that the other results are about |
| InlineRewrite.InlinedLabels | src/mapleall/maple_ipa/src/inline.cpp:345-393 | the labels of the rewritten body are exactly the callee labels behind the caller labels |
| InlineRuns.ExecInlined | src/mapleall/maple_ipa/src/inline.cpp:260-552 | running the rewritten body in the caller, from every state and with every amount of fuel, is running the callee body in its own frame: same jumps, same values, and a return has become the stored result and a jump to the return label |
| InlineRuns.DriveInlined | src/mapleall/maple_ipa/src/inline.cpp:260-552 | the same with backward jumps |
| InlineCall.BindInlined | src/mapleall/maple_ipa/src/inline.cpp:765-797 | the assignments in front of the body put the arguments into the formals |
| InlineCall.BindArgsBinds | src/mapleall/maple_ipa/src/inline.cpp:765-797 | every formal gets its argument |
| InlineCall.CoreIsCall | src/mapleall/maple_ipa/src/inline.cpp:691-853 | the bound and rewritten body reaches the return label exactly when the call returns or falls off its end, with the same result, globals and locals |
| InlineBody.RememberedIsGoto | src/mapleall/maple_ipa/src/inline.cpp:494-552 | the remembered jump is a jump to the return label at the remembered place |
| InlineBody.InlinedGotos | src/mapleall/maple_ipa/src/inline.cpp:519-543 | as many jumps lead to the return label as there were returns |
| InlineBody.VariantDrive | src/mapleall/maple_ipa/src/inline.cpp:822-853 | removing the jump to the next statement, or the return label nobody jumps to, changes nothing |
| InlineBody.NewBodyIsVariant | src/mapleall/maple_ipa/src/inline.cpp:822-853 | the removals are of that kind in all cases |
| InlineBody.NewBodyIsCall | src/mapleall/maple_ipa/src/inline.cpp:691-853 | the body that is inserted does what the call does, with a return label of its own or with the label behind the call |
| InlineBody.GivesUpExactly | src/mapleall/maple_ipa/src/inline.cpp:831 | the check on the remembered jump fails exactly for callees that return somewhere but do not end returning |
| InlineBody.GivesUpOnEarlyReturn | src/mapleall/maple_ipa/src/inline.cpp:831 | such a callee: an early return in one branch, and the other branch falls off the end |
| InlineSplice.Splice | src/mapleall/maple_ipa/src/inline.cpp:876-880 | dissolving the body into the enclosing block changes nothing |
| InlineSplice.Exchange | src/mapleall/maple_ipa/src/inline.cpp:876-880 | parts that run alike may be exchanged in a list with jumps |
| InlineMeaning.ReplacedAlike | src/mapleall/maple_ipa/src/inline.cpp:876-880 | and so they may anywhere inside nested blocks |
| InlineMeaning.NewTargets | src/mapleall/maple_ipa/src/inline.cpp:345-393 | jumps of the new body lead to its labels or to the return label |
| InlineMeaning.InliningKeepsMeaning | src/mapleall/maple_ipa/src/inline.cpp:691-880 | inlining preserves meaning: from every state the caller with the call replaced ends exactly as it did with the call |
| InlineMeaning.NewBodyTouchesResultOnly | src/mapleall/maple_ipa/src/inline.cpp:691-880 | the inserted body changes no local of the caller except the result of the call, which gets the value the callee returns |
| InlineFresh.InliningKeepsFreshMeaning | src/mapleall/maple_ipa/src/inline.cpp:691-880 | if the callee does not depend on what its uninitialised locals hold, the caller whose calls start from arbitrary fresh frames and the inlined caller end in the same way, with the same globals and the same own locals |
| InlineFresh.DriveFree | src/mapleall/maple_ipa/src/inline.cpp:691-880 | without calls of the callee it does not matter what frames hold |
| InlineMeaning.EmptyCallDoesNothing | src/mapleall/maple_ipa/src/inline.cpp:692-695 | a call of an empty function, which is simply removed, changes nothing of the caller |
| InlineLabels.InliningKeepsLabels | src/mapleall/maple_ipa/src/inline.cpp:325-853 | inlining keeps labels unique and inside the table, and every jump keeps or gets its label |
| InlineLabels.LabelsStayOk | src/mapleall/maple_ipa/src/inline.cpp:325-853 | after any number of inlinings labels are unique and every jump has its label |
| Inliner.MIRFunction.RenameSymbols | src/mapleall/maple_ipa/src/inline.cpp:205-245 | the entry at the old index plus the offset is the copy of the callee symbol, the formals of the table are exactly those it had, since no copy is one, and neither the index check nor the check for duplicate names can fail |
| Inliner.MIRFunction.RenameLabels | src/mapleall/maple_ipa/src/inline.cpp:325-343 | the entry at the old index plus the offset is the copy of the callee label, as the source checks |
| Inliner.CopiesAreFreshAndDiffer | src/mapleall/maple_ipa/src/inline.cpp:205-245 | renaming after the conversion of pu-static symbols: every local that has stayed has a copy of its own in the caller table, behind everything the caller had |
| Inliner.UpdateReturnStmts | src/mapleall/maple_ipa/src/inline.cpp:494-552 | the walk over nested blocks returns the rewritten body, the number of returns and the jump it remembers |
| Inliner.BindArguments | src/mapleall/maple_ipa/src/inline.cpp:764-797 | inserts the assignments for as many arguments as there are formals, the last one first |
| Inliner.RemoveSuperfluous | src/mapleall/maple_ipa/src/inline.cpp:822-853 | leaves a variant of the rewritten body: at most the jump to the next statement at its end and the return label are missing, and the label is there if anything jumps to it; gives up exactly when there are returns but no jump is remembered |
| Inliner.PerformInline | src/mapleall/maple_ipa/src/inline.cpp:691-887 | the caller becomes the function the results above are about; gives up exactly when there is no such function; the names in the symbol table stay apart, and the next number is unused; the formal entries of the table are exactly those it had, and the list of formals still names exactly them |
| Inliner.FormalsStayListed | src/mapleall/maple_ipa/src/inline.cpp:231-233 | after any number of inlinings the formal entries of the caller table are exactly those it had, and the ones its list of formals names |
| NestedTry.Silent | src/mapleall/maple_ipa/src/inline.cpp:940-943 | labels and comments do not matter |
| NestedTry.OpenInner | src/mapleall/maple_ipa/src/inline.cpp:938-952 | closing the outer region behind the last statement before an inner one keeps all handlers |
| NestedTry.Reopen | src/mapleall/maple_ipa/src/inline.cpp:973-979 | reopening the outer region before the next statement keeps all handlers |
| NestedTry.NextInner | src/mapleall/maple_ipa/src/inline.cpp:963-971 | an inner region that follows directly needs no reopening |
| NestedTry.AfterEnd | src/mapleall/maple_ipa/src/inline.cpp:954-960 | behind the end of an inner region comes a statement or another inner region, as asserted |
| NestedTry.EnterInner | src/mapleall/maple_ipa/src/inline.cpp:938-952 | the outer region is closed directly behind the last statement that is no label or comment, and the inner one gets its own handlers and then the outer ones |
| NestedTry.LeaveInner | src/mapleall/maple_ipa/src/inline.cpp:954-979 | labels and comments behind an inner region stay outside any; then comes the next inner region, or the outer one is reopened |
| NestedTry.ResolveNestedTryBlock | src/mapleall/maple_ipa/src/inline.cpp:932-985 | the result has no nested region, every statement keeps its handlers, inner before outer, and no other statement is lost or moved; it reports a change exactly if there was an inner region |
| InlineCost.GetFuncCost | src/mapleall/maple_ipa/src/inline.cpp:988-1128 | the recursive walk with early exits is the walk over the nodes in preorder |
| InlineCost.CostByKinds | src/mapleall/maple_ipa/src/inline.cpp:988-1128 | what the cost of a body is, by the kinds of its nodes: 10 for each call, throw and intrinsic that becomes a call, 4 for each access to a global variable and each table look-up, 2 for each other operation that counts, 1 for each conversion and merge, the threshold for small functions for each `alloca` and call of `setjmp`, and one more than its cases for each switch |
| InlineCost.SmallBounds | src/mapleall/maple_ipa/src/inline.cpp:988-1128 | so a body that is small enough has no more than a tenth of the threshold of calls, no more cases than the threshold, and an `alloca` or a call of `setjmp` only if the threshold is at least that for small functions |
| InlineCost.WalkFinds | src/mapleall/maple_ipa/src/inline.cpp:988-1128 | what each outcome of the walk says about total cost and forbidden nodes |
| InlineCost.EarlyExitDecidesAlike | src/mapleall/maple_ipa/src/inline.cpp:988-1128 | the early exits decide like a full walk: no forbidden node, and no more than the threshold in all |
| InlineCost.RememberedDecidesAlike | src/mapleall/maple_ipa/src/inline.cpp:1381-1392 | for the body it was measured on, a remembered cost decides like a fresh walk for every threshold no larger than the one it was found under |
| InlineCost.RememberedDecidesWrongly | src/mapleall/maple_ipa/src/inline.cpp:1381-1392 | for a larger threshold it decides wrongly exactly on a body found too big, but not bigger than the new threshold, that a full walk would turn down |
| InlineEdits.EditCost | src/mapleall/maple_ipa/src/inline.cpp:617-708 | converting pu-static variables to global ones adds 4 for each access to one, removing a call takes off what it costs, and neither makes or removes a forbidden node |
| InlineEdits.ConvertedOnce | src/mapleall/maple_ipa/src/inline.cpp:617-688 | converting again changes nothing more |
| InlineEdits.RememberedAfterEdits | src/mapleall/maple_ipa/src/inline.cpp:1381-1392 | after any conversions and removals of calls of empty functions, which do not make the inliner forget a cost, and for any threshold: exactly when the remembered cost still decides like a walk over the present body; for thresholds no larger than the one it was found under exactly unless the threshold lies between the old and the new cost |
| InlineEdits.ConversionMissedExactly | src/mapleall/maple_ipa/src/inline.cpp:704-708 | after a conversion alone the decision is wrong exactly if nothing is forbidden and the old cost is within the threshold, while the new one, which is 4 higher for each access, is not |
| InlineEdits.ConversionIsMissed | src/mapleall/maple_ipa/src/inline.cpp:704-708 | such a body: the assignment of a constant to a pu-static variable |
| InlineEdits.RemovalMissedExactly | src/mapleall/maple_ipa/src/inline.cpp:692-695 | after the removal of a call of an empty function it is wrong exactly if nothing is forbidden and the new cost is within the threshold, while the old one is not |
| InlineEdits.RemovalIsMissed | src/mapleall/maple_ipa/src/inline.cpp:692-695 | such a body: a function that calls itself and an empty function |
| InlineEdits.LargerThresholdIsWrong | src/mapleall/maple_ipa/src/inline.cpp:1381-1392 | for every larger threshold there is a body that is decided wrongly: assignments of converted locals, and a synchronised region behind them |
| InlineEdits.AlikeForAllBodies | src/mapleall/maple_ipa/src/inline.cpp:1381-1392 | remembered costs decide all function bodies alike exactly when the threshold is no larger, nothing has been converted since, and no call has been removed since |
| InlineMemory.ThresholdIsNoMark | src/mapleall/maple_ipa/src/inline.cpp:1351-1374 | no threshold equals the number that marks functions which are never inlined, although shifting drops high bits |
| InlineMemory.ThresholdMeans | src/mapleall/maple_ipa/src/inline.cpp:1351-1374 | hot and other calls have their own thresholds, a call of the function itself has at least that for recursion, an inline attribute multiplies by 8 and a single caller by 32, as far as 32 bits go |
| InlineMemory.CostMemory.AnalyzeCallee | src/mapleall/maple_ipa/src/inline.cpp:1346-1393 | in every state of a run: a callee without a remembered cost is decided by the body the call would get, the saved one for a function being inlined into itself; else the body now is what the recorded edits make of the body measured, or the saved body was measured, and the contract says exactly when the decision is the one for the body now |
| InlineMemory.CostMemory.PerformInline | src/mapleall/maple_ipa/src/inline.cpp:691-738 | which bodies change, which cost is forgotten and which is not: the removal of a call of an empty function and the conversion of the callee, which takes place even if the function has been inlined into itself often enough, leave costs as they are; only the caller that got a body is forgotten; the first time in a round that a function is inlined into itself its converted body is saved and its level goes up by one, never beyond the largest level unless that is 0 |
| InlineMemory.CostMemory.BeginRound | src/mapleall/maple_ipa/src/inline.cpp:1198-1201 | a new round forgets the saved body |
| InlineMemory.ConversionGoesUnnoticed | src/mapleall/maple_ipa/src/inline.cpp:1346-1393 | a run in which a callee is inlined a second time although it has become too big by being inlined the first time |
| InlineMemory.RemovalGoesUnnoticed | src/mapleall/maple_ipa/src/inline.cpp:1346-1393 | a run in which a function is not inlined although it has become small when a call of an empty function was removed |
| PuStatics.RefsDenoteTheSame | src/mapleall/maple_ipa/src/inline.cpp:617-688 | every reference of the body denotes the same symbol as before |
| PuStatics.DenseAndOrdered | src/mapleall/maple_ipa/src/inline.cpp:673-680 | the symbols that stay are renumbered in order |
| PuStatics.EveryIndexIsUsed | src/mapleall/maple_ipa/src/inline.cpp:673-680 | and without gaps |
| PuStatics.NewRefsDiffer | src/mapleall/maple_ipa/src/inline.cpp:617-688 | no two symbols end up in the same place |
| PuStatics.InitKeptExactly | src/mapleall/maple_ipa/src/inline.cpp:657-672 | the initial value of a pu-static symbol, with arrays and structures nested to any depth, denotes the same symbols afterwards exactly if every address of a pu-static symbol in it is the whole value and that symbol does not come later in the table, and every other local symbol in it comes before the first pu-static one |
| PuStatics.StayingInitKeptExactly | src/mapleall/maple_ipa/src/inline.cpp:673-686 | the initial value of a symbol that stays is not updated; it denotes the same symbols exactly if all local symbols in it come before the first pu-static one |
| PuStatics.OldIndexDenotes | src/mapleall/maple_ipa/src/inline.cpp:673-688 | an index that is not updated, as inside an array, denotes afterwards the symbol that has moved to this place from further behind, or none |
| PuStatics.OldIndexKeptExactly | src/mapleall/maple_ipa/src/inline.cpp:673-688 | it denotes the same symbol exactly if no symbol up to it is pu-static |
| PuStatics.ForwardAddressIsLost | src/mapleall/maple_ipa/src/inline.cpp:657-672 | two symbols that hold each other’s address: one address is lost |
| PuStatics.AddressInArrayIsLost | src/mapleall/maple_ipa/src/inline.cpp:657-672 | an array that holds the address of an earlier pu-static symbol: afterwards the element denotes another symbol |
| PuStatics.PuFunction.ConvertPStaticToFStatic | src/mapleall/maple_ipa/src/inline.cpp:617-688 | the tables and the body afterwards, with initial values as `InitKeptExactly` describes them |
| MarkInline.MarkPass.MarkUnInlinableFunction | src/mapleall/maple_ipa/src/inline.cpp:1440-1456 | the pass, with its marking of direct callers |
| MarkInline.MarkedExactly | src/mapleall/maple_ipa/src/inline.cpp:1440-1456 | in any order the pass marks exactly the seeds and what chains of callers with increasing turns lead to |
| MarkInline.BackwardsIsCalleesFirst | src/mapleall/maple_ipa/src/inline.cpp:1440-1456 | with SCCs of one member, a list without calls to earlier SCCs, walked backwards, has callees before callers, and nobody has two turns |
| MarkInline.OnlyCallersMarked | src/mapleall/maple_ipa/src/inline.cpp:1440-1456 | only seeds and their direct or indirect callers are marked |
| MarkInline.MarksAllCallers | src/mapleall/maple_ipa/src/inline.cpp:1440-1456 | with callees first, exactly those are marked from which calls lead to a seed through functions with a turn |
| MarkInline.PassIsExact | src/mapleall/maple_ipa/src/inline.cpp:1440-1456 | when every SCC of the call graph is one function, the pass over the SCCs that are left marks, of the functions left, exactly the seeds and their direct or indirect callers |
| MarkInline.TopologicalIsClosed | src/mapleall/maple_ipa/src/inline.cpp:1440-1456 | the list of all SCCs is such a list, and every function with an SCC has a turn |
| MarkInline.LeftIsClosed | src/mapleall/maple_ipa/src/call_graph.cpp:1407-1438 | and so is the list that a C module is left with |
| MarkInline.CycleIsMissed | src/mapleall/maple_ipa/src/inline.cpp:1440-1456 | a call graph with its exact SCCs, links and topological order in which two functions call each other and a caller is missed |
| MarkInline.ExactForAllSeeds | src/mapleall/maple_ipa/src/inline.cpp:1440-1456 | the pass is exact for all seeds exactly when every indirect caller is reached by an ascending chain |
| ReturnNull.FlaggedAreNonNull | src/mapleall/maple_ipa/src/prop_return_null.cpp:73-114 | at every moment of every run a version whose flag was cleared is not null |
| ReturnNull.MarkedNeverReturnNull | src/mapleall/maple_ipa/src/prop_return_null.cpp:436-452 | a marked function never returns null, in every run and however runs are nested |
| ReturnNull.StaysReliable | src/mapleall/maple_ipa/src/prop_return_null.cpp:73-168 | clearing a justified flag keeps flags and marks reliable |
| ReturnNull.MarkStaysReliable | src/mapleall/maple_ipa/src/prop_return_null.cpp:448-451 | marking a function none of whose returns may be null keeps them reliable |
| ReturnNull.DeservedMark | src/mapleall/maple_ipa/src/prop_return_null.cpp:436-452 | the law behind the mark: where all returned values are certain and the types agree, the state machine ends seeing no null |
| ReturnNull.OneReturnIsMarked | src/mapleall/maple_ipa/src/prop_return_null.cpp:436-480 | with one return the types agree by themselves |
| ReturnNull.RetypedIsTyped | src/mapleall/maple_ipa/src/prop_return_null.cpp:73-149 | every type that is inferred is the type of an allocation, a call or a symbol that the value can come from, and allocations that were visited have their own |
| ReturnNull.AllocatedMark | src/mapleall/maple_ipa/src/prop_return_null.cpp:218-242 | a function that only returns allocations of one type is marked |
| ReturnNull.PropReturnAttr.PropVarInferredType | src/mapleall/maple_ipa/src/prop_return_null.cpp:73-114 | clears the flag of a version exactly if it is defined by an allocation or a value that is not null; its type becomes that of the allocation or, while it may be null, the known type of the value |
| ReturnNull.PropReturnAttr.PropIvarInferredType | src/mapleall/maple_ipa/src/prop_return_null.cpp:116-149 | the same for indirect versions and the store that defines them |
| ReturnNull.PropReturnAttr.VisitVarPhiNode | src/mapleall/maple_ipa/src/prop_return_null.cpp:151-168 | clears the flag of a phi node only when those of all operands are cleared, and then it does |
| ReturnNull.PropReturnAttr.VisitMeExpr | src/mapleall/maple_ipa/src/prop_return_null.cpp:170-216 | clears the flag of every version an expression comes to whose definition clears it |
| ReturnNull.PropReturnAttr.ReturnTyIdxInferring | src/mapleall/maple_ipa/src/prop_return_null.cpp:218-242 | the state machine: the first type is kept, a second one leads to failure for good, and one return that may be null is enough |
| ReturnNull.PropReturnAttr.VisitCall | src/mapleall/maple_ipa/src/prop_return_null.cpp:386-414 | the result of a call takes over the mark of the callee and the type it is known to return |
| ReturnNull.PropReturnAttr.Perform | src/mapleall/maple_ipa/src/prop_return_null.cpp:436-452 | marks the function exactly if a return was seen, all types agreed and no return was seen that could be null when it was visited; never when two returns differ in type; and always when the types agree and each returned value is certain where it is returned: an allocation, the result of a marked function or of `malloc`, or a copy or phi of such values, defined by what was visited before |
| ReturnNull.PropReturnAttr.Prop | src/mapleall/maple_ipa/src/prop_return_null.cpp:466-480 | every function of the SCC that has a body and returns a pointer is marked, or has been traversed and its returns have shown why not; only such functions are newly marked, and none that returns allocations of different types |
| ReturnNull.PropReturnAttr.PhaseRun | src/mapleall/maple_ipa/src/prop_return_null.cpp:486-500 | after the phase no run of a function marked so far returns null; a function of the SCC that returns a pointer is marked if its only return returns a certain value, and if all its returns return allocations of one type; what is newly marked is in the SCC and was declared or returns a pointer |

## Left out

Call graph:

- `GenCallGraph` starts from the call edges and caller sets, one the inverse of the other. How they are collected, and
  `RemoveFileStaticRootNodes` with `DelNode`, which edit global tables, come before the model.
- An external function without a function object does not pin its SCC here; the source would follow a null pointer.
- `SortCGNodes`: the comparison the source sorts by is no order on cycles, so that every permutation of an SCC is allowed.
- Node numbers and visiting orders are unbounded; the source counts in 32 bits.
- `RecomputeSCC`, `UpdateCallGraphNode`, devirtualisation and dumping.

Escape analysis:

- Pointer nodes, the map from expressions to nodes, locations, reference counting marks and the translation of statements into
  graph operations. Runs are sequences of graph operations.
- Merging a graph into itself, the only case in which a field is added to a second object (`EACGObjectNode::AddOutNode`).
- Nodes are records in a vector and refer to each other by index, not by address; a deleted node is an empty slot.
- Assertions about arguments that trimming relies on for the source's own purposes (one `out` node, one pointee, no call site)
  and the assertion that callee arguments point somewhere are not needed and not required.
- Import and export of graphs.

Inliner:

- Virtual registers, conversions of argument types, comments, the null check of `this`, `switch`, address-taken labels,
  counting and for-each loops. Symbols without a name.
- `InlineMeaning.InliningKeepsMeaning`: local variables of a call that are not arguments start with whatever their places in
  the caller's table hold; other contents are the subject of `InlineFresh`. Addresses of local variables are not modelled.
- `InlineFresh.InliningKeepsFreshMeaning`: calls of the callee that are left in the inlined caller keep their frames there.
- `Inliner.PerformInline`: that a number is unused is required of the caller's table; the source counts how often each function has been
  inlined.
- Calls of other functions, and recursive calls, are arbitrary functions of their arguments and of the global variables.
- A jump into a nested block reaches its label there; a jump to a label that does not exist is excluded, as in the source
  language.
- `InlineBody.GivesUpExactly`: what happens after the inliner has given up is not modelled.
- `NestedTry.ResolveNestedTryBlock` works on the statements between the outer try and its end; finding the two is not modelled.
- `InlineCost.GetFuncCost`: the sum of costs does not wrap around at 32 bits here.
- `InlineMemory.CostMemory.AnalyzeCallee`: for a function that is being inlined into itself the source measures, and remembers,
  the body saved before, and so does the model. In that round this is the body each call gets. Afterwards the body may be any
  other, and the decision is the one for the saved body. Option values of 2^32 - 1 are excluded.
- `InlineMemory.CostMemory.PerformInline`: what the caller's body becomes is a parameter here; it is the subject of `Inliner`.
- `PuStatics.InitKeptExactly`: an initial value belongs to one symbol; an address constant that two symbols share is not modelled.
- White lists, profiles, name prefixes, function attributes other than those that set the threshold, and the search for the
  real caller.

Return-non-null propagation:

- `ReturnNull.PropReturnAttr.ReturnTyIdxInferring`: types are numbers; what they say about classes is not modelled.
- `ReturnNull.PropReturnAttr.PropIvarInferredType`: that an indirect version is defined by one store is taken over from the
  static single assignment form, whose construction is not modelled.
- Exceptions, and functions that do not return.
