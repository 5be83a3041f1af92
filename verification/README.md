# Rezel in Dafny

A model of the algorithms behind Rezel, an LR/GLR parser generator and runtime,
with proofs that its fast implementations mean what their simple descriptions
say. `dafny verify dfyconfig.toml` checks everything.

Code that works by changing things step by step is written as methods with
loops, as classes whose methods update fields, or over arrays, and is proved
against specification functions; what Rezel promises is then proved about
those. Expressions and definitions are functions, predicates and lemmas.

## The parts

**Compact trees** (`PostfixForest`, `CompactTree`, `PackedBuffer`, `Balance`,
`TreeBuilder`, `BufferSlices`). A parser leaves postfix records; the builder
reads them backwards and packs them into 16-bit buffers and balanced trees.
`TreeBuilder.BuildTree` states that the tree, expanded at absolute positions,
is the forest without its repeat nodes, and that its length is what the records
say. Validation accepts exactly the images of forests, balancing regroups
children in order and makes only nodes of at most ten children over unit
weights, and slicing or splitting a buffer keeps its forest.

**Automaton construction** (`FirstSets`, `LookaheadFamily`, `LookaheadChains`,
`LookaheadClosure`). First sets are what sentential forms can begin with, over
derivations of any length. The worklist closure yields the least closed family
of lookaheads, and that family holds exactly what chains of productions from the
core ask for: terminals that a rest can begin with, lookahead passed on where a
rest can vanish, ambiguity groups and skip contexts.

**Canonical LR(1) collapse** (`Automaton`, `MergeCondition`, `Collapse`,
`PlainCollapse`, `MergeStates`, `MergedAutomaton`). Revision stamps skip pairs
and whole groups, yet the result is that of the loop that compares every pair in
every pass, and every pair of members of every group passes the merge condition.
The loop stops because each spill raises the sum of the mapping. The merged
automaton keeps every path, adds no conflict, and keeps gotos unique.
`GeneratedActions.CanMergeIffAlike` says what the merge condition means to the
parser: wherever two states both act they have the same runtime codes and lead
to the same groups.

**Token automata** (`TokenExpressions`, `TokenBuilder`, `TokenRules`,
`TokenSets`, `TokenNfa`, `SubsetConstruction`, `TokenLanguage`, `Minimize`,
`TokenTable`, `TokenCompiler`, `TokenConflicts`). Token expressions with
tail-recursive rules become an automaton, and closure, subset construction over
code point intervals, partition refinement and table encoding follow.
`TokenSets.CompileTokenSet` states that the table accepts, for every string of
code points and end of file, exactly the tokens whose expressions denote it. The
recorded conflicts are exactly the prefix conflicts.

**Child cardinality** (`Cardinality`, `TypedFields`). The minimum number of
matching children is exact although relaxation stops after a fixed number of
rounds: a derivation can always be shortened below the number of terms. A finite
maximum bounds every derivation.

**Goto tables** (`Varint`, `GotoGroups`, `GotoHeader`, `GotoTable`,
`GotoWriter`, `GotoIndex`, `GotoRoundTrip`, `GeneratedGotos`). From gotos through varints, zigzag
differences, packed bytes, shared arrays and the search tree of the index back
to the same gotos. The decoders are specified on all tables, not only on those
the generator writes. `GeneratedGotos` takes the uniqueness of gotos from the
merged automaton to the lookups.

**Action rows** (`GeneratedActions`, `ActionWriter`, `SkipRows`, `ActionData`,
`RawWalk`, `ActionBlock`, `ActionRows`, `ActionIndex`, `ActionRoundTrip`). Rows written with
sharing read back as the actions of their states, skip sets included, through
the raw walk and through the index, and each code, decoded field by field,
performs its action: the nonterminal, the depth and the flags of its rule, or the
target of its shift. The index, with its sorting, filters and searches,
answers as a scan in source order does, and refuses only broken data.

**GLR stack buffers** (`StackBuffer`, `ForestCuts`, `StackForest`). Branches share
frozen chunks and write only to a private tail. Any interleaving of operations
over any number of branches leaves each branch reading as if its buffer had been
its own. A reduction puts one node over exactly the roots since its base frame,
and as long as none tears a tree apart, the records of each branch are the
postfix image of a forest, as the tree builder requires.

`Options`, `Counting` and `Splicing` are helpers.

## Where a property fails, and exactly when

- For arbitrary automata, the closure drops an accepting state that has no
  labelled edge but an epsilon edge to itself (`TokenLanguage.DroppedExample`).
  `TokenLanguage.SubsetExact` shows that the accepted terms agree for every
  string if and only if no such state is reachable, and
  `TokenCompiler.CompileTokens` carries this to the table. Grammars never lead
  there: no edge leaves an accepting state that the token builder makes
  (`TokenSets.BuiltFaithful`), so nothing is lost.
- A missing maximum child count is conservative. `Cardinality.ComputeMaximum`
  gives the exact condition over productive grammars: the terms of a closed set
  all get a finite maximum if and only if all their counts stay below the cap.
  `Cardinality.CappedExample` is a grammar of two terms whose counts are three,
  which is its cap.
- A reduction depth of 8192 or more does not survive its 13 bits;
  `ActionWriter.ReduceCodeBack` states the bound as an equivalence.
- A shift to state zero encodes as the missing action, which readers refuse;
  `ActionWriter.ShiftCodeBack` states when a code is zero. The rows are
  therefore proved for states that never shift to state zero.
- The closure of a core is refused if and only if some rule is asked for two
  skip contexts (`LookaheadClosure.Closure`), and then no closed family exists at
  all (`LookaheadChains.ClosedIffConsistent`).
- A reduction whose node ends before later records sinks below them, and when it
  ends inside an earlier tree, the records may stop being a forest
  (`StackForest.Torn`). `StackForest.ReduceKeepsIff` gives the exact condition,
  for all stacks and reductions: the node goes between roots, or below its own
  frame into a tree that makes room for a leaf, and the frames that are left
  still cut between roots. `StackForest.RunTrees` is about runs of such steps, and
  `StackForest.StepGrounded` shows that no other step will do.

## Model

| member | source | states |
|---|---|---|
| TreeBuilder.BuildTree | crates/rezel-common/src/tree.rs:887-921 | for every postfix buffer of a well-typed forest nested below the limit, no node is flattened and the built tree expands at absolute positions to exactly the forest without repeat nodes: same ids, ranges, order and nesting; without a given length it reaches from the start to the end of the last record, and has length zero if there is none |
| TreeBuilder.CompactTreeBuilder.TakeNode | crates/rezel-common/src/tree.rs:1023-1113 | one slot is taken off the right end of the records: what is left, erased, followed by what the slot expands to, is the erased input; the slot ends where the last root of the input ends |
| TreeBuilder.CompactTreeBuilder.CloseNodes | crates/rezel-common/src/tree.rs:1054-1109 | repeat records are passed and nodes finished until one needs another child, or the last has become the slot, which ends where its record does; every record is accounted for |
| TreeBuilder.CompactTreeBuilder.StartNode | crates/rezel-common/src/tree.rs:1115-1162 | either a packed slot, from the start of the leftmost record taken to the end of the last and no longer than a buffer may be, or a pending node, each accounting for exactly the records it takes |
| TreeBuilder.CompactTreeBuilder.PackNode | crates/rezel-common/src/tree.rs:1164-1192 | a packed buffer expands to the scanned records and spans from the scanned start to the given end; when a position does not fit 16 bits the cursor is back where it was |
| TreeBuilder.CompactTreeBuilder.FindBufferSize | crates/rezel-common/src/tree.rs:1307-1353 | the scan counts whole nodes only, knows how many of their records are repeat records and where the leftmost starts, stays within the length of a buffer, and leaves the cursor in place |
| TreeBuilder.WalkForest | crates/rezel-common/src/tree.rs:1307-1353 | scanning a whole forest ends with the start of its first tree, those of the repetition under construction opened |
| TreeBuilder.CompactTreeBuilder.CopyToBuffer | crates/rezel-common/src/tree.rs:1355-1385 | copying from the back encodes the erased nodes in the slots just below the index and touches no others |
| TreeBuilder.FinishNode | crates/rezel-common/src/tree.rs:1194-1230 | a finished pending node expands to its id and range around its collected children, balanced or not, and is as long as its range |
| TreeBuilder.MakeRepeatLeaf | crates/rezel-common/src/tree.rs:1393-1416 | collapsing collected children into a repeat leaf changes nothing of what they expand to; the leaf spans the given range and the children before it stay |
| TreeBuilder.CompactTreeBuilder.PassRepeat | crates/rezel-common/src/tree.rs:1060-1082 | passing a record of the repetition under construction keeps every pending node accounted for and leaves no group open that is as long as a buffer |
| TreeBuilder.GroupRepeat | crates/rezel-common/src/tree.rs:1062-1079 | closing the current group of a long repetition keeps the content of the pending node |
| TreeBuilder.PackedIsValid | crates/rezel-common/src/tree.rs:776-802 | a buffer packed by the builder always passes the check made on creation |
| TreeBuilder.BuildableIffShallow | crates/rezel-common/src/tree.rs:1083-1091 | the forests the builder is proved for without flattening are exactly the well-typed ones whose nesting, repeat runs not counted, goes at most two levels below the limit |
| PackedBuffer.ValidateBuffer | crates/rezel-common/src/tree.rs:776-802 | accepts exactly the records with known types, ordered ranges and properly nested ends |
| PackedBuffer.NestedIffForest | crates/rezel-common/src/tree.rs:776-802 | records are properly nested if and only if they are the image of some forest |
| PackedBuffer.NestedEncodes | crates/rezel-common/src/tree.rs:776-802 | a nested window is the image of the forest read from it by hopping over ends |
| PackedBuffer.EncodesNested | crates/rezel-common/src/tree.rs:776-802 | the image of any forest is nested |
| PackedBuffer.FindBufferChild | crates/rezel-common/src/tree.rs:2149-2173 | the first or last sibling on the wanted side, or none; the hop loop always lands on its end |
| PackedBuffer.SidesRelate | crates/rezel-common/src/tree.rs:2480-2490 | around is both before and after, the inclusive sides add the nodes that only touch, and looking left mirrors looking right |
| CompactTree.ParseWhole | crates/rezel-common/src/tree.rs:749-773 | a buffer that encodes a forest reads back as that forest |
| CompactTree.EncodesConcat | crates/rezel-common/src/tree.rs:1355-1385 | adjacent encoded windows encode the concatenated forest |
| PostfixForest.TakeForest | crates/rezel-common/src/tree.rs:1023-1113 | a whole subforest can be taken from the right, repeat nodes included, and what is taken is its erased content |
| PostfixForest.TakeSplits | crates/rezel-common/src/tree.rs:1307-1385 | what is left and what is taken make up the erased forest again |
| PostfixForest.EraseCount | crates/rezel-common/src/tree.rs:1307-1353 | every node is either erased or kept, so a buffer has as many slots as records less repeat records |
| Balance.BalanceTree | crates/rezel-common/src/tree.rs:510-520 | balancing keeps the content and the length of a wide node and only regroups its children; when none of them can be opened, it and every node made below it has at most ten children |
| Balance.BalanceRange | crates/rezel-common/src/tree.rs:1440-1484 | the node made of a range has the given length and expands to the range; its slots, and those of every node made below it, are groups of the given children in order, each from the start of its first to the end of its last, or the children of an opened one; with two or more unit weights it and every node made below it has from two to ten children |
| Balance.DivideBalanced | crates/rezel-common/src/tree.rs:1487-1556 | dividing keeps the content of the range and cuts it into such groups, and the unreachable arms are unreachable; unit weights make few groups, each a given child or a node that is narrow all the way down |
| Balance.FindGroup | crates/rezel-common/src/tree.rs:1503-1514 | a group of several children weighs less than the maximum, and the next child would fill it up |
| Balance.BalancedNodeSize | crates/rezel-common/src/tree.rs:1558-1603 | one more than the children if all are of the balance type, one otherwise |
| BufferSlices.Slice | crates/rezel-common/src/tree.rs:717-747 | records of a window, rebased in place; the length is the latest of their ends, or zero |
| BufferSlices.ExtentLatest | crates/rezel-common/src/tree.rs:717-747 | the extent of a slice is the latest of its rebased ends, or zero |
| BufferSlices.SliceExpands | crates/rezel-common/src/tree.rs:717-747 | a slice read from its new base is the forest of its window |
| BufferSlices.SliceValid | crates/rezel-common/src/tree.rs:717-747 | a slice between record boundaries of a valid buffer is valid |
| BufferSlices.OrderedRebasable | crates/rezel-common/src/tree.rs:2535-2549 | on position-ordered buffers no subtraction of a slice can fail |
| BufferSlices.MaterializeBufferNode | crates/rezel-common/src/tree.rs:2492-2511 | a record turned into nodes expands to the record and everything below it |
| BufferSlices.BufferNodeToTree | crates/rezel-common/src/tree.rs:2513-2527 | a record turned into a node over a slice expands to the same |
| BufferSlices.PushBufferSlice | crates/rezel-common/src/tree.rs:2535-2549 | at most one slot is added, which expands to the window |
| BufferSlices.SplitBufferPath | crates/rezel-common/src/tree.rs:2552-2621 | splitting along a path of records keeps the content of the window, and the child path leads to the tree of the last record |
| FirstSets.ComputeFirstSets | crates/rezel-generator/src/automaton.rs:493-546 | the relaxation stops, and its table is sound and closed |
| FirstSets.ExactEntry | crates/rezel-generator/src/automaton.rs:493-546 | an entry is present if and only if the nonterminal derives the empty sequence, or a form that begins with the terminal |
| FirstSets.ExactFirst | crates/rezel-generator/src/automaton.rs:493-546 | the same for sequences of terms |
| FirstSets.RuleFirst | crates/rezel-generator/src/automaton.rs:508-528 | one production contributes the first set of its parts under the table so far |
| FirstSets.RelaxRule | crates/rezel-generator/src/automaton.rs:507-536 | a production keeps the table sound and either adds an entry or has nothing to add |
| FirstSets.RelaxAll | crates/rezel-generator/src/automaton.rs:501-538 | a pass that changes nothing leaves no production with anything to add |
| FirstSets.StepShrinks | crates/rezel-generator/src/automaton.rs:493-546 | a derivation step can only lose first symbols of a closed table |
| FirstSets.FirstOfSound | crates/rezel-generator/src/automaton.rs:493-546 | what a sound table says of a sequence is derivable |
| LookaheadClosure.Closure | crates/rezel-generator/src/automaton.rs:782-864 | with exact first sets it fails if and only if some rule is asked for two skip contexts; else a position is in the result if and only if it is fixed in the core, or it is the zero-dot position of a rule asked for and holds exactly the terminals, ambiguity groups and skip context that chains of productions from the core ask for it; this is the least closed family |
| LookaheadClosure.Answer | crates/rezel-generator/src/automaton.rs:801-855 | handling one position leaves every position that is not queued answered, or shows that no closed family exists |
| LookaheadClosure.AddNested | crates/rezel-generator/src/automaton.rs:823-855 | one rule of the next term gets the lookahead, keeping the family least; what changed is queued, and disagreeing skip contexts rule out every closed family |
| LookaheadClosure.FileCore | crates/rezel-generator/src/automaton.rs:788-795 | the first zero-dot position of each rule of the core is filed, and what they hold is forced |
| LookaheadFamily.TermsAhead | crates/rezel-generator/src/automaton.rs:866-894 | the first set of the rest of the production, and what follows if the rest can vanish |
| LookaheadFamily.TermsAheadExact | crates/rezel-generator/src/automaton.rs:866-894 | with exact first sets, a term is ahead if and only if it is a terminal that the rest begins with, or comes after and the rest can vanish |
| LookaheadClosure.Contribute | crates/rezel-generator/src/automaton.rs:809-822 | the lookahead, ambiguity groups and skip context that a position hands on, which `LookaheadChains.ContributionExact` describes |
| LookaheadFamily.ForcedJoin | crates/rezel-generator/src/automaton.rs:826-834 | two lookaheads that every closed family must include are included together, or no closed family exists |
| LookaheadChains.ContributionExact | crates/rezel-generator/src/automaton.rs:809-822 | what a position hands to a rule of its next term: the terminals that the rest begins with, its own if the rest can vanish; the ambiguity groups after that term, and its own at the end of the rule; its own skip context at the end, that of the rule before |
| LookaheadChains.AskedHas | crates/rezel-generator/src/automaton.rs:801-855 | every closed family holds what a chain of productions from the core asks for |
| LookaheadChains.ClosedIffConsistent | crates/rezel-generator/src/automaton.rs:825-829 | a closed family exists if and only if no rule is asked for two skip contexts |
| LookaheadChains.LeastExact | crates/rezel-generator/src/automaton.rs:782-864 | the least closed family holds exactly what chains of productions ask for |
| LookaheadChains.MemberExpected | crates/rezel-generator/src/automaton.rs:782-864 | its positions are the fixed ones of the core and one for each rule asked for, with exactly what is asked |
| MergeCondition.CommonEntriesMatchByKey | crates/rezel-generator/src/automaton.rs:162-187 | the two-pointer walk compares exactly the entries whose keys occur on both sides |
| MergeCondition.BuildActionIndex | crates/rezel-generator/src/automaton.rs:213-268 | one entry for each term, in term order, that points at exactly the actions on it |
| MergeCondition.ActionRangesAreCompatible | crates/rezel-generator/src/automaton.rs:1297-1345 | the comparison of two ranges is the compatibility of the actions on the term |
| MergeCondition.ComputeCanMerge | crates/rezel-generator/src/automaton.rs:1258-1294 | the indexed check is the merge condition over all common terms |
| Collapse.CollapseMapping | crates/rezel-generator/src/automaton.rs:997-1083 | collapse stops, every pair of members of every group then passes the merge condition under the final mapping, and groups and mapping are those of the loop that remembers nothing and compares every pair in every pass |
| Collapse.ScanGroups | crates/rezel-generator/src/automaton.rs:1037-1078 | a pass over the groups gives what comparing every pair anew gives, and leaves all pairs merging or raises the mapping sum |
| Collapse.ScanGroup | crates/rezel-generator/src/automaton.rs:1043-1077 | a scan with remembered pairs gives what comparing every pair anew gives; without a spill every pair of the group merges, and a spill raises the mapping sum |
| Collapse.Spill | crates/rezel-generator/src/automaton.rs:1223-1256 | the member moves to the first later group of the same origin that it can join; no group before that fits, and none at all when a new one is made |
| PlainCollapse.PlainUnique | crates/rezel-generator/src/automaton.rs:1036-1082 | the loop without memory has only one result |
| PlainCollapse.ScanUnchanged | crates/rezel-generator/src/automaton.rs:1040-1042 | comparing every pair of a group whose pairs all merge changes nothing |
| Collapse.SpillMember | crates/rezel-generator/src/automaton.rs:1064-1071 | a spill with its bookkeeping keeps every remembered pair and validated group true |
| Collapse.InitialGroups | crates/rezel-generator/src/automaton.rs:1001-1027 | two states share an initial group if and only if they are of one class, in which no start state is; groups and members are in order of appearance |
| Collapse.CollapseMemo.MappingChanged | crates/rezel-generator/src/automaton.rs:1197-1205 | stamping the sources of the moved state keeps every remembered answer true under the new mapping |
| Collapse.CollapseMemo.Remember | crates/rezel-generator/src/automaton.rs:1055-1063 | a pair that merges may be remembered |
| Collapse.MarkValidated | crates/rezel-generator/src/automaton.rs:1128-1130 | a group whose pairs all merge may be marked with its signature |
| Collapse.GroupStaysValid | crates/rezel-generator/src/automaton.rs:1111-1138 | a signature that is still current after a remapping still vouches for all pairs |
| Collapse.SkippedGroup | crates/rezel-generator/src/automaton.rs:1040-1042 | a group skipped by its signature has all its pairs merging |
| Collapse.GroupCount | crates/rezel-generator/src/automaton.rs:1223-1256 | no group loses its first member, so there are no more groups than states |
| Collapse.SpillBudget | crates/rezel-generator/src/automaton.rs:1036-1082 | the mapping sum, which every spill raises, is at most the square of the number of states |
| MergeStates.AddMapped | crates/rezel-generator/src/automaton.rs:1373-1395 | the mapped actions are added up to equivalence, and nothing else is |
| MergeStates.MergeAll | crates/rezel-generator/src/automaton.rs:1348-1398 | each merged state has the mapped actions and gotos of its members and no others |
| MergedAutomaton.CollapseAutomaton | crates/rezel-generator/src/automaton.rs:997-1083 | the merged automaton and its mapping |
| MergedAutomaton.PathsMerged | crates/rezel-generator/src/automaton.rs:1348-1398 | every path of the full automaton, on any string of symbols, is a path of the merged one |
| MergedAutomaton.NoNewActions | crates/rezel-generator/src/automaton.rs:1258-1294 | on a term on which a member acts, every merged action is the image of one of its own, up to reductions that `GeneratedActions.NoNewCodes` shows to have one code |
| MergedAutomaton.HeadersKept | crates/rezel-generator/src/automaton.rs:1348-1398 | every state keeps its item core, skip set and token group in the merged automaton, which starts a rule exactly where the full one does; start states merge with no other |
| MergedAutomaton.StaysDeterministic | crates/rezel-generator/src/automaton.rs:1258-1294 | merging adds no conflict to an automaton without conflicts |
| MergedAutomaton.GotosStayUnique | crates/rezel-generator/src/automaton.rs:1264-1274 | a merged state has at most one goto on a term |
| MergedAutomaton.GroupActionsAgree | crates/rezel-generator/src/automaton.rs:1277-1294 | members of a group that act on a term act on it alike |
| MergedAutomaton.TermCompatibleBoth | crates/rezel-generator/src/automaton.rs:1297-1345 | the one-sided comparison of actions is symmetric for the states that occur |
| TokenNfa.Closure | crates/rezel-generator/src/token.rs:138-167 | the significant states that epsilon edges reach, sorted |
| TokenNfa.DroppedIffInsignificant | crates/rezel-generator/src/token.rs:138-167 | an accepting state is dropped if and only if it has no labelled edge and an epsilon edge to itself |
| SubsetConstruction.MergeEdges | crates/rezel-generator/src/token.rs:169-202 | sorted disjoint intervals that lead exactly where the edges lead |
| SubsetConstruction.InternSet | crates/rezel-generator/src/token.rs:205-217 | a set is numbered once and keeps its number |
| SubsetConstruction.BuildState | crates/rezel-generator/src/token.rs:91-133 | the deterministic state for a set stands for it on every symbol |
| SubsetConstruction.Determinize | crates/rezel-generator/src/token.rs:84-136 | the worklist stops, and every numbered set has its state |
| TokenLanguage.SubsetExact | crates/rezel-generator/src/token.rs:84-167 | the subset automaton accepts the terms of the token automaton, for every string, if and only if no reachable accepting state without labelled edges has an epsilon edge to itself |
| TokenLanguage.DfaSound | crates/rezel-generator/src/token.rs:84-136 | it never accepts more |
| TokenLanguage.DfaComplete | crates/rezel-generator/src/token.rs:84-136 | it accepts all when no such state is reachable |
| TokenLanguage.DroppedDiffers | crates/rezel-generator/src/token.rs:138-167 | one such state makes the languages differ |
| Minimize.AcceptingPartition | crates/rezel-generator/src/token.rs:602-616 | one group for each accepting list |
| Minimize.RefineRound | crates/rezel-generator/src/token.rs:547-576 | a round separates exactly what the old groups tell apart, numbering groups by first member |
| Minimize.RoundProgress | crates/rezel-generator/src/token.rs:546-581 | a round that does not stop adds a group, or renumbers the groups canonically, which cannot happen twice |
| Minimize.CanonicalUnique | crates/rezel-generator/src/token.rs:546-581 | two canonical numberings of one partition are equal |
| Minimize.StablePartition | crates/rezel-generator/src/token.rs:545-581 | the loop stops at a partition that no state tells apart |
| Minimize.MinimizeDfa | crates/rezel-generator/src/token.rs:544-600 | the quotient of the automaton by the stable partition |
| Minimize.QuotientAccepts | crates/rezel-generator/src/token.rs:544-600 | the quotient accepts the same terms from every state, for every string |
| Minimize.QuotientWellFormed | crates/rezel-generator/src/token.rs:544-600 | edges of the quotient stay sorted, disjoint and in range |
| TokenTable.ReachableFrom | crates/rezel-generator/src/token.rs:431-448 | each reachable state once, the start first |
| TokenTable.StateMask | crates/rezel-generator/src/token.rs:484-498 | the mask is the union of the masks of all terms accepted from the state on: it covers each, and every mask that covers each covers it |
| TokenTable.UnlistedInAllGroups | crates/rezel-generator/src/token.rs:484-498 | a term without a mask of its own belongs to every token group, any other to those of its mask |
| TokenTable.SortByPrecedence | crates/rezel-generator/src/token.rs:312-319 | the same terms, each as often, in order of precedence, and in their old order within a precedence |
| TokenTable.PlaceFirst | crates/rezel-generator/src/token.rs:312-319 | precedence is the first place in the list, and unlisted ids come last |
| TokenTable.EncodeEdges | crates/rezel-generator/src/token.rs:329-357 | sorted edges between encoded states are never refused |
| TokenTable.ToTable | crates/rezel-generator/src/token.rs:288-382 | every reachable state has its row; an error names a size that is really exceeded |
| TokenTable.EncodeState | crates/rezel-generator/src/token.rs:304-372 | one more row says what its state says, and nothing changes for the others; an error names a size that is really exceeded |
| TokenCompiler.TableExact | crates/rezel-generator/src/token.rs:288-382 | the table accepts from a row exactly the output ids of the terms its state accepts |
| TokenCompiler.CompileTokens | crates/rezel-generator/src/token.rs:84-382 | closure, subsets, minimisation and encoding together keep the accepted terms, for every string of code points and end of file, if and only if no reachable accepting state is dropped (only if: when terms have different output ids) |
| TokenCompiler.TokensLost | crates/rezel-generator/src/token.rs:84-382 | with different output ids, what the subset construction loses is missing from the table |
| TokenLanguage.DroppedExample | crates/rezel-generator/src/token.rs:138-167 | an automaton of one accepting state with an epsilon edge to itself accepts the empty string, its subset automaton nothing |
| TokenLanguage.EndingFaithful | crates/rezel-generator/src/token.rs:138-167 | an automaton whose accepting states have no edges drops none of them |
| TokenExpressions.InvertRanges | crates/rezel-generator/src/build.rs:3594-3607 | the ranges of an inverted set hold exactly the code points that the set does not |
| TokenExpressions.RepeatIncludes | crates/rezel-generator/src/build.rs:2800-2828 | a repetition is nothing, or one word followed by a repetition |
| TokenExpressions.CoversInFront | crates/rezel-generator/src/build.rs:2664-2726 | an expression may be replaced by what it includes, whatever follows |
| TokenBuilder.AcceptsExplained | crates/rezel-generator/src/build.rs:2664-2871 | what is accepted from a state for a term is what the state still has to read for it |
| TokenBuilder.BuiltRule | crates/rezel-generator/src/build.rs:2591-2662 | a rule that names itself at its own target is complete once its body is, for every depth of naming |
| TokenBuilder.BuiltNext | crates/rezel-generator/src/build.rs:2772-2798 | a sequence built part by part leads from its start to its target on all its words |
| TokenBuilder.BuiltZeroOrMore | crates/rezel-generator/src/build.rs:2800-2828 | the loop state repeats the expression any number of times |
| TokenRules.TokenNfaBuilder.BuildExpression | crates/rezel-generator/src/build.rs:2664-2726 | however the automaton grows later, the words of the expression lead from one state to the other, and no edge leads anywhere on a string that is not denoted; a refusal has a name without a rule or a rule inside itself behind it |
| TokenRules.TokenNfaBuilder.BuildRule | crates/rezel-generator/src/build.rs:2591-2662 | a name stands for its rule, built once on the stack; recursion is accepted at the same target and refused elsewhere |
| TokenRules.TokenNfaBuilder.BuildSequence | crates/rezel-generator/src/build.rs:2772-2798 | the same for sequences |
| TokenRules.TokenNfaBuilder.BuildRepeat | crates/rezel-generator/src/build.rs:2800-2828 | the same for the three kinds of repetition |
| TokenRules.TokenNfaBuilder.BuildLiteral | crates/rezel-generator/src/build.rs:2830-2850 | the same for literals |
| TokenRules.TokenNfaBuilder.BuildSet | crates/rezel-generator/src/build.rs:2705-2715 | the same for character sets |
| TokenRules.TokenNfaBuilder.GetToken | crates/rezel-generator/src/build.rs:2431-2489 | a new term gets its own accepting state, reached from the start by its expression |
| TokenRules.FoundRecursion | crates/rezel-generator/src/build.rs:2608-2640 | a rule met again while it is built is one that leads back to itself |
| TokenSets.BuildTokens | crates/rezel-generator/src/build.rs:2431-2871 | the automaton of a token set accepts a term on exactly the strings that its expression denotes, and the subset construction loses none of them |
| TokenSets.BuiltFaithful | crates/rezel-generator/src/build.rs:2431-2871 | no edge leaves an accepting state of a built automaton, so no reachable accepting state is dropped |
| TokenSets.BuiltRecognises | crates/rezel-generator/src/build.rs:2431-2871 | a built automaton recognises exactly what its expressions denote |
| TokenSets.CompileTokenSet | crates/rezel-generator/src/build.rs:2431-2871 | from expressions to the encoded table: it accepts, for every string, exactly the output ids of the tokens whose expressions denote the string |
| TokenConflicts.FindConflicts | crates/rezel-generator/src/token.rs:385-425 | a pair of different terms is recorded once, if and only if a string of one is a string, or a prefix of a string, of the other |
| TokenConflicts.ConflictByPrefix | crates/rezel-generator/src/token.rs:385-425 | reachability between accepting states is the prefix relation between accepted strings |
| Cardinality.SumKnown | crates/rezel-generator/src/typed.rs:1017-1027 | the sum of a production unless a part is unknown or the sum overflows |
| Cardinality.ComputeMinimum | crates/rezel-generator/src/typed.rs:908-943 | the minimum is attained by a derivation and no derivation has fewer |
| Cardinality.RoundsSuffice | crates/rezel-generator/src/typed.rs:923-943 | as many rounds as there are terms reach every derivation |
| Cardinality.Shorten | crates/rezel-generator/src/typed.rs:923-943 | every derivation has one that counts no more and is no higher than the number of terms |
| Cardinality.RoundStep | crates/rezel-generator/src/typed.rs:925-939 | relaxing one term in place keeps all values attained and covers derivations one level higher |
| Cardinality.NextMaximum | crates/rezel-generator/src/typed.rs:989-1009 | one capped step over all productions |
| Cardinality.MarkUnbounded | crates/rezel-generator/src/typed.rs:963-980 | the marks are closed under dependency and no more than that |
| Cardinality.ComputeMaximum | crates/rezel-generator/src/typed.rs:945-987 | a finite maximum bounds every derivation; when all terms are productive it is attained, and a closed set of terms is finite if and only if its counts stay below the cap |
| Cardinality.CappedExample | crates/rezel-generator/src/typed.rs:945-987 | a grammar with exactly three children in every derivation gets no finite maximum |
| Cardinality.SettledBounds | crates/rezel-generator/src/typed.rs:945-987 | unmarked terms form a set on which the capped iteration has settled, which bounds all their derivations |
| Cardinality.BoundedSettles | crates/rezel-generator/src/typed.rs:945-962 | where counts stay below the cap, as many steps as there are terms have reached them all |
| Cardinality.Pump | crates/rezel-generator/src/typed.rs:945-987 | a derivation that counts more than one of its own term inside it can be pumped to any count |
| TypedFields.DirectCardinality | crates/rezel-generator/src/typed.rs:817-868 | the bounds over all productions of a parent are met by its children; a refusal has a part without a countable derivation, or children beyond the largest count, behind it |
| TypedFields.NormalizedGrammar.DirectCardinalityFor | crates/rezel-generator/src/typed.rs:870-894 | the bounds over all kinds of a typed node; a refusal is that of one of them |
| TypedFields.NormalizedGrammar.EnsureSummaries | crates/rezel-generator/src/typed.rs:896-906 | the cache gains the summaries of a target set and keeps the others |
| TypedFields.RequiredIffAlwaysPresent | crates/rezel-generator/src/typed.rs:748-772 | a required field is accepted if and only if every derivation of every kind has more matches than the occurrence selected |
| TypedFields.OptionalRefusals | crates/rezel-generator/src/typed.rs:748-772 | an optional field is refused as always present if and only if it is, as unreachable only if it is, and without a bound accepted if and only if some derivation lacks it |
| TypedFields.RepeatedRefusals | crates/rezel-generator/src/typed.rs:748-772 | a repeated field is refused only if no derivation has two matches |
| TypedFields.RepeatedAccepted | crates/rezel-generator/src/typed.rs:748-772 | a repeated field is accepted where matches have no bound; with a bound, if and only if some derivation has two matches and reaches the occurrence |
| Varint.EncodeVarint | crates/rezel-generator/src/build.rs:3945-3957 | appends the base-128 digits of the value |
| Varint.DigitsRead | crates/rezel-generator/src/build.rs:3945-3957 | the digits read back as the value wherever they stand |
| Varint.UnpackedPacked | crates/rezel-generator/src/build.rs:3959-3968 | packed bytes read back from the words, with a zero where one was padded |
| GotoGroups.EncodeSourceDeltas | crates/rezel-generator/src/build.rs:3924-3943 | succeeds exactly on strictly increasing sources, with the packed digits of their differences |
| GotoGroups.StoreGotoGroup | crates/rezel-generator/src/build.rs:3897-3922 | succeeds exactly on storable groups, with the shorter of the two forms |
| GotoGroups.RawIsShort | crates/rezel-lr/src/constants.rs:151-155 | a raw group is so short that its tag can neither overflow nor be taken for the compressed tag |
| GotoGroups.DeltaBytesShort | crates/rezel-generator/src/build.rs:3924-3943 | strictly increasing 16-bit sources take at most one byte each and 512 more |
| GotoGroups.SourcesReadBack | crates/rezel-lr/src/goto_index.rs:214-268 | packed differences read back as the sources, whatever follows |
| GotoGroups.GroupReadBack | crates/rezel-lr/src/goto_index.rs:57-83 | a stored group reads back as itself wherever it stands |
| GotoGroups.DecodeDelta | crates/rezel-lr/src/goto_index.rs:223-249 | one difference of at most three bytes and 16 bits, or a refusal |
| GotoGroups.DecodeSourceDeltas | crates/rezel-lr/src/goto_index.rs:214-268 | all differences, or a refusal when one is bad or does not increase |
| GotoGroups.DecodeGotoSources | crates/rezel-lr/src/goto_index.rs:57-83 | the sources at a position in the form the tag names, or a refusal |
| GotoHeader.EncodeGotoHeader | crates/rezel-generator/src/build.rs:3879-3895 | the packed codes of all positions |
| GotoHeader.ZigzagBack | crates/rezel-generator/src/build.rs:3888-3891 | zigzag differences read back, negative ones included |
| GotoHeader.PositionsReadBack | crates/rezel-lr/src/goto_index.rs:110-140 | the codes read back as the positions, whatever follows |
| GotoHeader.HeaderReadBack | crates/rezel-lr/src/goto_index.rs:85-173 | a raw or compressed header reads back as its positions, shifted past itself |
| GotoHeader.DecodeHeaderVarint | crates/rezel-lr/src/goto_index.rs:175-201 | one code of at most 64 bits, or a refusal; the shift register loses no bit |
| GotoHeader.DecodePositions | crates/rezel-lr/src/goto_index.rs:110-140 | all positions, or a refusal |
| GotoHeader.DecodeCompressedHeader | crates/rezel-lr/src/goto_index.rs:93-149 | the compressed header of any table, with its length and padding checks |
| GotoHeader.DecodeRawHeader | crates/rezel-lr/src/goto_index.rs:152-173 | the raw header of any table, refused when an entry points into it other than as empty |
| GotoHeader.DecodeGotoHeader | crates/rezel-lr/src/goto_index.rs:85-150 | the header of any table in either form |
| GotoTable.FindArray | crates/rezel-generator/src/build.rs:3624-3630 | the first place where an array occurs, or that there is none |
| GotoTable.DataBuilder.StoreArray | crates/rezel-generator/src/build.rs:401-415 | the array occurs at the position, the data only grows, and only when the array is new |
| GotoTable.GroupsReadBack | crates/rezel-lr/src/goto_index.rs:300-339 | the groups of a term read back in order, up to the end flag |
| GotoTable.SharedGroupsReadBack | crates/rezel-generator/src/build.rs:3796-3842 | groups found anywhere in the data read back from the finished table |
| GotoWriter.CollectGotos | crates/rezel-generator/src/build.rs:3796-3816 | the nested map lists the sources of every term and target; only ids beyond 16 bits are refused |
| GotoWriter.OrderGroups | crates/rezel-generator/src/build.rs:3825-3833 | the default group, chosen by size and then target, moves last |
| GotoWriter.DefaultMostFrequent | crates/rezel-generator/src/build.rs:3826-3831 | no other group of the term has more sources |
| GotoWriter.TermGroupsMember | crates/rezel-generator/src/build.rs:3796-3842 | the groups of a term are its targets with all their sources |
| GotoWriter.WriteGroups | crates/rezel-generator/src/build.rs:3834-3837 | the words of all groups, with only the last flagged |
| GotoWriter.FinishGotoTable | crates/rezel-generator/src/build.rs:3844-3877 | header and data, refused exactly when a position or the table does not fit |
| GotoWriter.ComputeGotoTable | crates/rezel-generator/src/build.rs:3796-3877 | every term reads back as its groups; a refusal means an id beyond 16 bits, unordered sources, or gotos that fill a table even uncompressed |
| GotoWriter.TableExact | crates/rezel-generator/src/build.rs:3796-3968 | a strict lookup in the written table gives a target if and only if the automaton has that goto |
| GotoWriter.LooseAgrees | crates/rezel-lr/src/goto_index.rs:369-379 | a loose lookup agrees wherever the strict one is defined |
| GotoIndex.SortExceptions | crates/rezel-lr/src/goto_index.rs:12-26 | in place: the same entries in ascending order, refused exactly when a source repeats |
| GotoIndex.FillBalanced | crates/rezel-lr/src/goto_index.rs:36-44 | the tree below an index holds the next sorted entries in order, and nothing outside it changes |
| GotoIndex.SubSizeAll | crates/rezel-lr/src/goto_index.rs:28-44 | the implicit tree uses up the sorted list exactly |
| GotoIndex.BalanceExceptions | crates/rezel-lr/src/goto_index.rs:28-34 | a search tree over the same entries |
| GotoIndex.SearchTree | crates/rezel-lr/src/goto_index.rs:357-367 | the descent finds what a scan of the original list finds |
| GotoIndex.CollectTerm | crates/rezel-lr/src/goto_index.rs:300-338 | the groups of a term and its exceptions, or a refusal, for any table |
| GotoIndex.Build | crates/rezel-lr/src/goto_index.rs:289-346 | succeeds exactly on loadable tables |
| GotoIndex.Get | crates/rezel-lr/src/goto_index.rs:348-380 | the indexed lookup is a walk over the groups of the term, strict or loose |
| GotoRoundTrip.WrittenLoadable | crates/rezel-lr/src/goto_index.rs:289-346 | every written table can be loaded |
| GotoRoundTrip.EncodeAndIndex | crates/rezel-generator/src/build.rs:3796-3877 | whenever the writer succeeds the index does |
| GotoRoundTrip.LookUp | crates/rezel-lr/src/goto_index.rs:348-380 | through table and index, a strict lookup gives exactly the goto of the automaton; a loose one agrees, answers whenever any state has a goto on the term, and otherwise guesses the most frequent target |
| GotoRoundTrip.GuessMostFrequent | crates/rezel-generator/src/build.rs:3825-3833 | a loose guess is the target with the most source states on the term, the largest of those with as many |
| GeneratedGotos.MergedUnique | crates/rezel-generator/src/automaton.rs:1348-1398 | the merged automaton has at most one goto per state and term |
| GeneratedGotos.RetargetedUnique | crates/rezel-generator/src/automaton.rs:1429-1445 | dropping states and renumbering targets keeps it so |
| GeneratedGotos.EntriesUnique | crates/rezel-generator/src/build.rs:3796-3816 | the gotos that the table writer sees of such an automaton are unique |
| GeneratedGotos.IndexGotos | crates/rezel-generator/src/build.rs:3796-3877 | the gotos of an automaton are written and indexed; a refusal has an oversized id, unordered sources or a full table behind it |
| GeneratedGotos.GotoOf | crates/rezel-lr/src/goto_index.rs:348-380 | in that index a strict lookup of a state and a term gives exactly the goto of the state on the term; a loose one agrees wherever there is one |
| GotoRoundTrip.ValidateGotoTable | crates/rezel-lr/src/parse.rs:1227-1266 | accepts exactly the tables whose groups are complete and name known states |
| GotoRoundTrip.WrittenValid | crates/rezel-lr/src/parse.rs:1227-1266 | a written table over known states passes validation |
| ActionWriter.ReduceCodeBack | crates/rezel-lr/src/constants.rs:48-99 | every field of a reduction reads back, the depth if and only if it is below 8192 |
| ActionWriter.ShiftCodeBack | crates/rezel-lr/src/constants.rs:35-99 | every field of a shift reads back; only a plain shift to state zero is the missing action |
| ActionWriter.ReductionPerforms | crates/rezel-generator/src/build.rs:3745-3759 | the code of a rule, read field by field: it reduces to the output id of its name, by as many frames as it has parts if and only if those are fewer than 8192, as a repetition if and only if it is a repeat rule of two parts that begins with itself, and stays if and only if its name is a skip rule |
| ActionWriter.CodePerforms | crates/rezel-generator/src/build.rs:3705-3723 | the code of an action is filed under the output id of its term; that of a shift is its target without flags, that of a reduction the code of its rule |
| ActionWriter.SameReduceIffSameCode | crates/rezel-generator/src/grammar.rs:313-317 | two rules with known ids and fewer than 8192 parts are the same reduction if and only if their runtime codes are equal |
| ActionWriter.EncodeActions | crates/rezel-generator/src/build.rs:3705-3729 | the words of the actions the state keeps for itself, entry by entry performing them; only a target beyond 16 bits is refused |
| ActionWriter.StoreActions | crates/rezel-generator/src/build.rs:3695-3743 | the row is in the data, or is the shared row when that holds everything |
| ActionWriter.LongestFit | crates/rezel-generator/src/build.rs:3655-3667 | the longest shared row all of whose actions the state has |
| ActionWriter.LargestOverlap | crates/rezel-generator/src/build.rs:3669-3682 | the largest overlap with a later state that is worth sharing |
| ActionWriter.FindSharedActions | crates/rezel-generator/src/build.rs:3645-3693 | a stored row that fits the state, or none |
| ActionWriter.Rearranged | crates/rezel-generator/src/build.rs:3695-3743 | own and shared actions are the actions of the state, each once |
| ActionWriter.StateReadBack | crates/rezel-generator/src/build.rs:3695-3743 | however a state was stored, its chain reads back as its actions, each once, with the fallback reduction |
| ActionWriter.StateRowActs | crates/rezel-generator/src/build.rs:3695-3743 | every entry on the chain of a written state performs one of its actions on its term, and every action is performed by an entry or by the fallback |
| ActionWriter.EofReducePerforms | crates/rezel-generator/src/build.rs:716-729 | there is a fallback if and only if the state has a reduction on the end of input, and it performs one |
| GeneratedActions.MergedDistinct | crates/rezel-generator/src/automaton.rs:1348-1398 | the merged automaton has at most one shift, and no two equivalent reductions, per state and term |
| GeneratedActions.OneShift | crates/rezel-generator/src/automaton.rs:1277-1294 | all shifts of a merged state on a term go to the same state |
| GeneratedActions.CanMergeIffAlike | crates/rezel-generator/src/automaton.rs:1257-1345 | two states pass the merge condition if and only if on every term on which both act they do the same, shifting to the same group or reducing by the same runtime code, and their common gotos lead to the same group |
| GeneratedActions.GroupMembersAlike | crates/rezel-generator/src/automaton.rs:1257-1345 | members of one group do the same wherever both do anything |
| GeneratedActions.NoNewCodes | crates/rezel-generator/src/automaton.rs:1258-1294 | on a term on which a member acts, every merged action has the runtime code of one of its own |
| GeneratedActions.RetargetedDistinct | crates/rezel-generator/src/automaton.rs:1429-1445 | dropping states and renumbering targets keeps it so |
| GeneratedActions.WriterStates | crates/rezel-generator/src/build.rs:683-759 | so the states that the row writer is given have distinct actions |
| ActionWriter.StoreState | crates/rezel-generator/src/build.rs:716-745 | one state is written and reads back |
| ActionWriter.FinishStates | crates/rezel-generator/src/build.rs:683-759 | every state reads back from the final data, which fits 16-bit offsets, although rows are shared and the data grew after them |
| SkipRows.BuildSkipData | crates/rezel-generator/src/build.rs:643-681 | every skip set has a row that reads back as its tokens and the tokens that start its rule; only data that is too long is refused |
| SkipRows.EncodeSkip | crates/rezel-generator/src/build.rs:652-679 | the words of the row of a skip set |
| SkipRows.SkipRowMeans | crates/rezel-generator/src/build.rs:652-679 | on a token of the set the row stays in the state, on any other token that can begin the skip rule it enters the rule, and it has no other action |
| ActionData.RowReadBack | crates/rezel-lr/src/action_index.rs:407-450 | a row reads back as written wherever its words occur |
| ActionData.DecodeRow | crates/rezel-lr/src/action_index.rs:407-450 | the entries and the ending of a row, or a refusal, for any data |
| ActionData.ReadRowLater | crates/rezel-generator/src/build.rs:401-415 | data that grows keeps every readable row |
| ActionData.ChainLater | crates/rezel-generator/src/build.rs:401-415 | and every chain of rows |
| RawWalk.AllActions | crates/rezel-lr/src/parse.rs:756-784 | when no continuation row is empty, the raw walk visits the default reduction and then the entries of the chain, up to the first that the visitor stops at |
| RawWalk.ValidAction | crates/rezel-lr/src/parse.rs:786-789 | an action is valid if and only if it is the default reduction or in the chain |
| RawWalk.NextStates | crates/rezel-lr/src/parse.rs:791-814 | the targets of all shifts of the chain, each once, with a term that leads to it |
| ActionRows.QueueOffset | crates/rezel-lr/src/action_index.rs:458-471 | an offset inside the data is queued once |
| ActionRows.CollectRows | crates/rezel-lr/src/action_index.rs:67-97 | each reachable row is decoded once; a refusal names a reachable bad row |
| ActionRows.SortRows | crates/rezel-lr/src/action_index.rs:98-103 | the same rows in ascending offset order |
| ActionRows.RowId | crates/rezel-lr/src/action_index.rs:473-478 | the place of an offset, or that it is not listed |
| ActionRows.RejectCycles | crates/rezel-lr/src/action_index.rs:480-502 | accepts exactly the links of which every chain ends |
| ActionBlock.SortEntries | crates/rezel-lr/src/action_index.rs:114-122 | the stable sort by term, with the source order of each entry |
| ActionBlock.FirstTerminal | crates/rezel-lr/src/action_index.rs:234-255 | the first place of a term, by scan or bisection |
| ActionBlock.BuildTermFilter | crates/rezel-lr/src/action_index.rs:353-366 | the low five bits of every term |
| ActionBlock.FilterPasses | crates/rezel-lr/src/action_index.rs:22-24 | a term that the filter lacks is not in the row |
| ActionBlock.FindErrorEntry | crates/rezel-lr/src/action_index.rs:328-342 | the first error entry in source order |
| ActionBlock.VisitTerm | crates/rezel-lr/src/action_index.rs:298-319 | all actions of a term in source order |
| ActionIndex.BuildRows | crates/rezel-lr/src/action_index.rs:105-138 | every row is indexed as it stands in the data; only a row beyond 65535 entries is refused |
| ActionIndex.First | crates/rezel-lr/src/action_index.rs:186-232 | the first action of a plain scan of the chain in source order, error entries included |
| ActionIndex.VisitRow | crates/rezel-lr/src/action_index.rs:290-325 | all actions of a term along the chain in source order, and the fallback |
| ActionIndex.CheckChains | crates/rezel-lr/src/action_index.rs:480-502 | accepts exactly the rows whose chains end in the data |
| ActionIndex.FilterWords | crates/rezel-lr/src/action_index.rs:392-404 | the bit of a term is set if and only if the term was collected |
| ActionIndex.BuildSkipFilter | crates/rezel-lr/src/action_index.rs:368-405 | a term that may not match has no skip action in any state |
| ActionIndex.Build | crates/rezel-lr/src/action_index.rs:67-164 | the index represents the data; a refusal has a broken row, an overlong row or table, or an endless chain behind it |
| ActionIndex.FirstAction | crates/rezel-lr/src/action_index.rs:178-184 | the plain scan of the own row, and of the skip row if that gives nothing |
| ActionIndex.StateChainsEnd | crates/rezel-lr/src/action_index.rs:480-502 | in an index the chains of every state end |
| ActionRoundTrip.EndingAccepted | crates/rezel-lr/src/action_index.rs:67-164 | data of 16-bit length whose chains end is never refused |
| ActionRoundTrip.WriteAndIndex | crates/rezel-generator/src/build.rs:477-489 | skip rows, state rows and the precedence list are written into one array, which the index then accepts and represents and in which the chain of every state performs exactly its actions; only what does not fit is refused |
| ActionRoundTrip.WrittenAccepted | crates/rezel-lr/src/action_index.rs:67-164 | whatever the generator writes is accepted |
| ActionRoundTrip.StateActionsOn | crates/rezel-lr/src/action_index.rs:257-325 | in the index of written data, a term visits exactly the codes of the actions of the state on it, each as often, and the fallback; every code visited performs one of these actions, and each of them is performed by a code or by the fallback |
| ActionRoundTrip.StateFirst | crates/rezel-lr/src/action_index.rs:178-184 | the first action of a state in that index is one of its own on the term or on errors, or else its fallback, or else what its skip set does |
| ActionRoundTrip.VisitState | crates/rezel-lr/src/action_index.rs:290-325 | through rows and index, a term visits the codes of the actions the state has on it, each as often, and the fallback; what is visited performs these actions and no others |
| ActionRoundTrip.CodesPerform | crates/rezel-generator/src/build.rs:3705-3723 | the codes of a term perform the actions on it one by one |
| ActionRoundTrip.OwnCodesAct | crates/rezel-lr/src/action_index.rs:257-325 | the codes of a state on a term perform its actions on the term, apart from what its fallback does |
| ActionRoundTrip.FallbackPerforms | crates/rezel-generator/src/build.rs:716-729 | only a state of a skip expression without default reduction falls back, and then to one of its reductions on the end of input |
| ActionRoundTrip.WalkState | crates/rezel-lr/src/parse.rs:756-784 | the raw walk sees the default reduction and the codes of the same actions, each performing its action |
| ActionRoundTrip.CodesPermuted | crates/rezel-generator/src/build.rs:3695-3743 | rearranging the actions of a state rearranges the codes of a term |
| StackBuffer.RunBranches | crates/rezel-lr/src/stack.rs:294-808 | for any interleaving of operations on any number of branches, each branch reads as a stack with one private buffer; what that stack holds is stated by `StackForest.RunTrees` |
| StackBuffer.StepBranches | crates/rezel-lr/src/stack.rs:547-601 | an operation on one branch leaves its siblings as they were |
| StackBuffer.Stack.constructor | crates/rezel-lr/src/stack.rs:179-203 | an empty stack |
| StackBuffer.Stack.Split | crates/rezel-lr/src/stack.rs:563-601 | freezing a prefix changes neither branch but for the pruning base |
| StackBuffer.Stack.FreezePoint | crates/rezel-lr/src/stack.rs:564-570 | as much of the tail as may be: what is frozen ends by the reduce position and leaves an error on top alone, and no longer part does |
| StackBuffer.Stack.StoreNode | crates/rezel-lr/src/stack.rs:416-480 | storing in the tail is storing in the flat buffer, limit included |
| StackBuffer.Stack.StoreTail | crates/rezel-lr/src/stack.rs:431-479 | error merging, plain appends and sinking, in the order of the branches |
| StackBuffer.Stack.NeedsMove | crates/rezel-lr/src/stack.rs:460-464 | whether a record to be passed has a size |
| StackBuffer.Stack.Sink | crates/rezel-lr/src/stack.rs:466-474 | records that end later move up in place, and the node goes below them |
| StackBuffer.Stack.PushRecord | crates/rezel-lr/src/stack.rs:484-503 | the record goes on top |
| StackBuffer.Stack.PushState | crates/rezel-lr/src/stack.rs:294-309 | a frame at the current end of the buffer, up to the depth limit |
| StackBuffer.Stack.Shift | crates/rezel-lr/src/stack.rs:516-537 | a shift moves the flat stack alike |
| StackBuffer.Stack.StayShift | crates/rezel-lr/src/stack.rs:539-544 | a shift that stays in its state |
| StackBuffer.Stack.GotoShift | crates/rezel-lr/src/stack.rs:513-515 | a shift into a skip rule |
| StackBuffer.Stack.Reduce | crates/rezel-lr/src/stack.rs:311-414 | a reduction does to the flat stack what it does to this one, and fails alike; what that is is stated by `StackForest.ReduceBuilds` and `StackForest.ReduceFailsIff` |
| StackBuffer.Stack.RecoverByDelete | crates/rezel-lr/src/stack.rs:603-619 | recovery by deletion |
| StackBuffer.Stack.RecoverByInsert | crates/rezel-lr/src/stack.rs:656-668 | one branch of recovery by insertion |
| StackBuffer.Stack.ForceReduce | crates/rezel-lr/src/stack.rs:697-716 | a forced reduction, with its error when the action is not valid |
| StackBuffer.Stack.Restart | crates/rezel-lr/src/stack.rs:797-808 | restarting a dead end |
| StackBuffer.StoredAppend | crates/rezel-lr/src/stack.rs:416-480 | neither error merging nor sinking reaches a frozen record |
| StackBuffer.SunkPlace | crates/rezel-lr/src/stack.rs:459-476 | where a sunk node goes, and that no record is lost or reordered |
| StackBuffer.SunkSpan | crates/rezel-lr/src/stack.rs:373-389 | a sunk node counts exactly the records between its start and its own place |
| StackBuffer.StackBufferCursor.constructor | crates/rezel-lr/src/stack.rs:72-82 | the cursor stands behind all records of the stack |
| StackBuffer.StackBufferCursor.Next | crates/rezel-lr/src/stack.rs:125-135 | passing a record leaves the others, across chunks |
| StackBuffer.StackBufferCursor.Top | crates/rezel-lr/src/stack.rs:102-119 | the record in front of the cursor is the last one not passed |
| StackForest.RunTrees | crates/rezel-lr/src/stack.rs:294-808 | over any interleaving of operations on any number of branches, as long as no reduction sinks its node into an earlier tree, the records of every branch are the postfix image of a forest that its frames cut between roots |
| StackForest.RunGrounded | crates/rezel-lr/src/stack.rs:294-808 | the same of the flat stacks |
| StackForest.StepGrounded | crates/rezel-lr/src/stack.rs:294-808 | an operation keeps the records of a stack a forest that its frames cut if and only if it is clean, which only a reduction can fail to be |
| StackForest.ReduceBuilds | crates/rezel-lr/src/stack.rs:335-414 | a reduction goes back to the frame that its depth names and takes the goto from there; its node starts at that frame, ends where the stack has reduced to, and covers exactly the roots since that frame, or where later records end later, those below them |
| ForestCuts.CoveredRecords | crates/rezel-lr/src/stack.rs:466-474 | a node put in between roots counts exactly the records of the roots it covers, and only itself below its frame |
| StackForest.OnTop | crates/rezel-lr/src/stack.rs:453-479 | where nothing ends later the node covers all roots since the frame |
| StackForest.ReduceFailsIff | crates/rezel-lr/src/stack.rs:311-414 | exactly when a reduction is refused: too few frames, no base state or goto, or a full stack or buffer |
| StackForest.ReduceKeepsIff | crates/rezel-lr/src/stack.rs:373-413 | a reduction keeps the records a forest cut by frames if and only if its node can be put in at its place and the cuts of the frames that are left stay between roots |
| ForestCuts.PutIn | crates/rezel-lr/src/stack.rs:466-474 | between roots a node can be put in, and as a leaf below its frame also into a tree that makes room; which cuts stay |
| ForestCuts.PutNeeded | crates/rezel-lr/src/stack.rs:466-474 | nowhere else do the records stay a forest |
| ForestCuts.RoomMade | crates/rezel-lr/src/stack.rs:466-474 | a tree makes room for a leaf if every node around the place begins with a leaf or has the place in its first child: the first of these leaves is pushed out in front |
| ForestCuts.RoomNeeded | crates/rezel-lr/src/stack.rs:466-474 | and only then |
| ForestCuts.NoRoom | crates/rezel-lr/src/stack.rs:466-474 | inside a tree there is no room for a node that covers roots before it |
| StackForest.Torn | crates/rezel-lr/src/stack.rs:459-476 | a node that ends inside the only tree of a stack destroys its forest |
| StackForest.TornExample | crates/rezel-lr/src/stack.rs:459-476 | there are such stacks |
| ForestCuts.PostInjective | crates/rezel-lr/src/stack.rs:484-503 | records stand for one forest at most |
| StackForest.EmptyBuilds | crates/rezel-lr/src/stack.rs:324-338 | a reduction of nothing opens a frame and adds an empty leaf at the position of the stack |
| StackForest.ShiftBuilds | crates/rezel-lr/src/stack.rs:505-545 | a shift opens a frame at the current end and adds a leaf; what the reduce position and the start of the frame become |
| StackForest.StayBuilds | crates/rezel-lr/src/stack.rs:539-544 | a token that stays in its state only adds a leaf |
| StackForest.DeleteBuilds | crates/rezel-lr/src/stack.rs:603-619 | a deleted token becomes the child of an error |
| StackForest.InsertBuilds | crates/rezel-lr/src/stack.rs:656-668 | an insertion opens a frame and then adds an empty error |
| StackForest.ErrorBuilds | crates/rezel-lr/src/stack.rs:431-450 | an empty error is added unless an error is on top |
| StackForest.ForceBuilds | crates/rezel-lr/src/stack.rs:697-716 | a forced reduction is a reduction at the position of the stack, after an error and a penalty if the state does not have it |
| StackForest.RestartBuilds | crates/rezel-lr/src/stack.rs:797-808 | a restart gives up all frames for the state of the first |
| StackForest.RunLimited | crates/rezel-lr/src/stack.rs:294-309 | no branch of any run is ever deeper than the limit |

## Left out

- TreeBuilder.BuildTree: text positions are unbounded integers, so an underflow
  of a 32-bit position is not modelled; a record of four words is one `Record`,
  and an unknown node type, on which Rezel panics, is excluded by the
  precondition.
- TreeBuilder.CompactTreeBuilder.TakeNode: flattening below 2500 levels
  (`take_flat_node`) drops inner nodes on purpose and is not part of this model.
- Balance.BalancedNodeSize: the cache keyed by pointer identity is left out; it
  only remembers results of a pure function. So is the cache of action indexes
  in the collapse.
- Balance.BalanceRange: the width of nodes is bounded for unit weights only;
  children that are opened into their own children may make a node wider.
- BufferSlices.Slice: positions and ends that a slice cannot subtract, on which
  Rezel panics, are excluded by the precondition; `OrderedRebasable` shows
  that position-ordered buffers have none.
- FirstSets.ComputeFirstSets: vectors without duplicates that are sorted at the
  end are sets here, in the closure as well.
- LookaheadClosure.Closure: of the conflicts of a position only the ambiguity
  groups are modelled; precedences and cuts decide conflicts elsewhere.
- Collapse.CollapseMapping: pairs are compared in member order only, as Rezel
  does; `MergedAutomaton.TermCompatibleBoth` shows when the order is
  immaterial.
- MergeStates.MergeAll: flags, default reductions and action positions are not
  carried along.
- TokenCompiler.CompileTokens: the runtime tokenizer loop is not part of this
  model.
- TokenRules.TokenNfaBuilder.BuildExpression: parameters of token rules and the
  lookup of names are resolved beforehand, each instance of a rule being a rule
  of its own; character classes are sets of fixed ranges. Error texts, specialised
  tokens and dialects are left out.
- TokenConflicts.FindConflicts: whether a conflict is hard or soft, and the terms
  on cycles that decide it, are not recorded.
- TypedFields.OptionalRefusals: one way only when no finite maximum is known,
  because a missing maximum is conservative; the same holds for
  `TypedFields.RepeatedRefusals`.
- TypedFields.NormalizedGrammar.DirectCardinalityFor: the wording of schema
  errors is not modelled.
- GotoWriter.ComputeGotoTable: a refusal is explained by sizes that hold without
  sharing and compression; sharing may save a table that this bound gives up on.
- GotoRoundTrip.LookUp: at most one goto per state and term is assumed, which
  `GeneratedGotos.MergedUnique` proves of merged automata. Between merging and
  writing, Rezel merges states of identical behaviour, which drops states and
  renumbers targets; `GeneratedGotos.RetargetedUnique` shows that this keeps
  gotos unique, and which states are merged is left out.
- GeneratedGotos.IndexGotos: the lookups are those of the states as written,
  after identical states were merged.
- ActionBlock.BuildTermFilter: a 32-bit filter is the set of its bits, and the
  64-bit words of the skip filter are as well.
- ActionBlock.SortEntries: library sorting and searching are written out as
  insertion and bisection, here and in `ActionRows.SortRows`.
- ActionIndex.Build: flags, default reductions and tokenizer masks of states are
  copied unchanged and left out; entry orders are kept even when
  no row has an error entry.
- GeneratedActions.WriterStates: that nothing shifts to state zero is assumed of
  the states as written; whether merging identical states could bring it about
  is not decided.
- RawWalk.AllActions: the default reduction of the state is a parameter.
- SkipRows.BuildSkipData: a skip rule without a start state of 16 bits, on which
  Rezel panics, is excluded by the precondition; how single tokens are told from
  skip rules is left out.
- ActionRoundTrip.StateFirst: where a state has actions on the error term, rows
  that share entries may order them differently, so that either may come first.
- StackBuffer.Stack.Reduce: after a failed operation the parser gives up, so the
  state that is left behind is not described. Context trackers, the large
  reduction tracker and the choice of forced reductions and inserted states are
  parameters or left out.
- StackForest.RunTrees: that the stacks of a real grammar only sink in this way is a
  condition on each step; it is not derived from the grammar.
- TreeBuilder.CompactTreeBuilder.FindBufferSize: how much is packed is bounded
  from above only; that no more would have fitted is not stated.
- StackBuffer.RunBranches: the scheduler that picks branches, their pruning and
  their scores beyond penalties are not part of this model.
- The merging of identical states, rule inlining, conflict resolution during
  automaton construction, and the remapping of terms are left out.
- Tree cursors and syntax node navigation, mounts and overlays are left out.
- Grammar text, Rust output, configuration files, highlighting and language
  packages are left out.
