# Seedbank trees: a Dafny model

The modelled system is a BEAST 2 package for phylogenetic inference under the
seedbank coalescent. Every lineage of a genealogy is in one of two types:
dormant (0, in the seed bank) or active (1). Lineages coalesce only while
active and switch type along their branches. A seedbank tree is a binary
time tree whose branches carry the times and types of these switches.

The package provides:

- the tree itself, with its validity checks, change counts and copy operations;
- two starting-tree simulators;
- the tree density under the two-deme coalescent, in two node encodings;
- the MCMC operators that change a tree and the per-branch dormancy
  parameters lambda (the dormant share of a branch) and eta (whether a branch
  is dormant at all). The operators are:
  - retyping by uniformization;
  - Wilson-Balding moves;
  - subtree exchange;
  - pair birth and death of type changes;
  - node and tree scaling;
  - dormancy movers and bit flips;
  - lambda scalers;
  - grid search;
- branch-rate clock models;
- the Bernoulli and spike-and-slab priors;
- loggers that summarise a tree.

## How the model is built

- **Trees.** A tree is an arena of nodes indexed by node number. Parent
  links and child lists hold node numbers, and -1 stands for null. The
  `SeedbankTree` class holds the node objects (`SeedbankNode`, whose fields
  the operators update in place). `View()` reads them as a sequence of
  `NodeRec` values. Read-only algorithms run on that snapshot: validity,
  densities, loggers and clock rates.
- **Operators.** Every operator is a method on the tree and on the optional
  lambda and eta arrays. Its postcondition ties the result and the new state
  to a specification function on values. Lemmas then state what that
  function does:
  - the log Hastings ratio it returns;
  - which branches change and which stay;
  - when it rejects with negative infinity;
  - which exceptions it can raise.
- **Randomness.** Random draws are parameters, read in the order the source
  makes them. A loop that needs more draws than it was given fails with
  `DrawsExhausted`, an error kind the model adds.
- **Doubles.** `Math.log` is a parameter `ln`. The matrix exponential giving
  the end-point probability of a branch is a parameter `expm`. The
  uniformized chain is a `Chain` of total functions.
- **Exceptions.** Java exceptions are `Result`/`Outcome` error values named
  after their Java class. A `catch (Exception e)` that returns negative
  infinity is modelled where the source has one.

Some behaviours are modelled as written:

- `retypeBranch` never throws `NoValidPathException`, because its body has no
  throw. The catch clauses around it in RecolorBranch, TypedSubtreeExchange,
  TypedWilsonBalding and DormantBitFlip (DormantBitFlip.java:59) are
  therefore never reached. DormantBitFlip checks the returned value for
  negative infinity itself and rejects. In the other three, a retype that gives up
  returns negative infinity. The operator then subtracts it and returns
  positive infinity, which means "accept", not "reject"
  (`Doubles.SubtractingRejection`, `RecolorBranches.RecoloredAbortIsNotRejected`).
  This is modelled as written and is not claimed as a finding: the intent
  behind the dead catch clauses is not clear from the source.
- SeedbankTreeInitialiser clears the changes on the root's left child. The
  result is invalid exactly when that child is dormant
  (`Initialisers.ClearedValidIff`).
- SeedbankTreeInitializer computes a coalescence propensity that includes
  theta, then overwrites it with one that does not.
- DormantBitFlip rejects some proposals to switch an indicator on. The
  rejection returns only after eta has been set to 1 and the new lambda
  written, and both are kept.

## Model

| member | source | states |
|---|---|---|
| TransitionModels.ClampLowerToZero | src/seedbanktree/evolution/tree/TransitionModel.java:36-43 | initAndValidate raises the lower bound of a RealParameter to at least 0 and leaves its value, upper bound and any non-RealParameter alone; the bound changes exactly when it was negative |
| TransitionModels.BackwardRateCases | src/seedbanktree/evolution/tree/TransitionModel.java:54-62 | getBackwardRate is 0 on the diagonal, rate for 1 -> 0 and rate*K for every other pair |
| TransitionModels.ValidatedRatesNonNegative | src/seedbanktree/evolution/tree/TransitionModel.java:29-76 | after initAndValidate, any in-bounds rate, K and active size give non-negative backward rates and population sizes (the dormant size only when K > 0) |
| Doubles.SubtractingRejection | src/seedbanktree/operators/RecolorBranch.java:41-49 | a log Hastings ratio minus a retyping probability of -infinity is +infinity, never a rejection |
| SeedbankNodes.TypeLengthPartition | src/seedbanktree/evolution/tree/SeedbankNode.java:133-149 | with types 0 and 1 the dormant and active lengths getTotalLength reports for a branch add up to the branch length |
| SeedbankNodes.CreditedPartition | src/seedbanktree/evolution/tree/SeedbankNode.java:133-149 | every segment below the last change is credited to exactly one of the two types |
| SeedbankNodes.SeedbankNode.constructor | src/seedbanktree/evolution/tree/SeedbankNode.java:12-18 | a fresh node has no parent, no children, type 0 and no changes |
| SeedbankNodes.SeedbankNode.SetNodeType | src/seedbanktree/evolution/tree/SeedbankNode.java:57-64 | a type other than 0 or 1 raises IllegalArgumentException and changes nothing; otherwise only the type changes |
| SeedbankNodes.SeedbankNode.AddChange | src/seedbanktree/evolution/tree/SeedbankNode.java:67-74 | appends the change type and time and increments the count, checking neither |
| SeedbankNodes.SeedbankNode.ClearChanges | src/seedbanktree/evolution/tree/SeedbankNode.java:77-82 | empties both change lists and sets the count to 0, keeping every other field |
| SeedbankNodes.SeedbankNode.SetChangeTime | src/seedbanktree/evolution/tree/SeedbankNode.java:85-88 | re-times change idx; an index outside the list raises IndexOutOfBounds and changes nothing |
| SeedbankNodes.SeedbankNode.SetChangeType | src/seedbanktree/evolution/tree/SeedbankNode.java:91-94 | re-types change idx; an index outside the list raises IndexOutOfBounds and changes nothing |
| SeedbankNodes.SeedbankNode.TruncateChanges | src/seedbanktree/evolution/tree/SeedbankNode.java:97-105 | keeps the first min(k, count) changes; a negative k empties the lists and then raises on removing index -1 |
| SeedbankNodes.SeedbankNode.InsertChange | src/seedbanktree/evolution/tree/SeedbankNode.java:108-117 | inserts at idx with every old change keeping its order; idx past the end raises IllegalArgument, a negative idx IndexOutOfBounds, both without change |
| SeedbankNodes.SeedbankNode.RemoveChange | src/seedbanktree/evolution/tree/SeedbankNode.java:120-130 | removes change idx only; idx at or past the end raises IllegalArgument, a negative idx IndexOutOfBounds, both without change |
| SeedbankNodes.SeedbankNode.GetTotalLength | src/seedbanktree/evolution/tree/SeedbankNode.java:133-149 | 0 for the root; otherwise the segments credited to the type plus the last segment when the final type is the type |
| SeedbankNodes.SeedbankNode.ShallowCopy | src/seedbanktree/evolution/tree/SeedbankNode.java:154-170 | a fresh node with all fields equal, sharing parent and children |
| SeedbankNodes.SeedbankNode.Copy | src/seedbanktree/evolution/tree/SeedbankNode.java:176-196 | the top node of copy(): the same fields, no parent and at most the first two children |
| SeedbankNodes.SeedbankNode.AssignFrom | src/seedbanktree/evolution/tree/SeedbankNode.java:204-229 | the node's own part of assignFrom: the other node's fields, no parent, and the child slots overwritten only where the other node has children |
| SeedbankNodes.Overlaid | src/seedbanktree/evolution/tree/SeedbankNode.java:219-228 | setLeft then setRight: the first min(2, n) slots come from the source, later slots are kept, and a source without children changes nothing |
| SeedbankNodes.RemoveInsert | src/seedbanktree/evolution/tree/SeedbankNode.java:108-130 | removeChange(idx) undoes insertChange(idx, ...) |
| SeedbankNodes.InsertAtShape | src/seedbanktree/evolution/tree/SeedbankNode.java:108-117 | an insertion puts the new entry at idx and shifts the later entries up by one |
| SeedbankNodes.RemoveAtShape | src/seedbanktree/evolution/tree/SeedbankNode.java:120-130 | a removal deletes entry idx and shifts the later entries down by one |
| SeedbankTrees.SettersAgreeWithGetters | src/seedbanktree/evolution/tree/SeedbankTree.java:282-298 | setLeft and setRight change only their own slot, which getLeft and getRight then return |
| SeedbankTrees.BranchTimesAreValid | src/seedbanktree/evolution/tree/SeedbankTree.java:379-390 | the inner loop of timesAreValid accepts a child exactly when its change times, read from the parent down, never increase and the child is no later than its first change |
| SeedbankTrees.TimesAreValid | src/seedbanktree/evolution/tree/SeedbankTree.java:377-394 | timesAreValid(node) holds exactly when every child branch is time-ordered and every child subtree is valid |
| SeedbankTrees.TypesAreValid | src/seedbanktree/evolution/tree/SeedbankTree.java:396-406 | typesAreValid(node) holds exactly when every child branch, recursively, ends (after its last change) in its parent's type |
| SeedbankTrees.IsValid | src/seedbanktree/evolution/tree/SeedbankTree.java:372-374 | isValid is timesAreValid(root) and then typesAreValid(root) |
| SeedbankTrees.LocalConditionsGiveValidity | src/seedbanktree/evolution/tree/SeedbankTree.java:377-406 | when every branch is time-ordered and ends in its parent's type, both recursive checks accept from any node |
| SeedbankTrees.ValidityDescends | src/seedbanktree/evolution/tree/SeedbankTree.java:377-406 | a valid node passes validity on to each child subtree, with that child's branch ordered and typed |
| SeedbankTrees.OrderedBranchBounds | src/seedbanktree/evolution/tree/SeedbankTree.java:379-390 | on an ordered branch the change times are sorted and lie between the node and its parent |
| SeedbankTrees.GetTotalNumberOfChanges | src/seedbanktree/evolution/tree/SeedbankTree.java:413-424 | the sum of the change counts of the non-root nodes |
| SeedbankTrees.ChangesOfNonRootsUpdate | src/seedbanktree/evolution/tree/SeedbankTree.java:413-424 | replacing one non-root node shifts the total change count by the difference of its counts |
| SeedbankTrees.ChangesOfNonRootsNonNegative | src/seedbanktree/evolution/tree/SeedbankTree.java:413-424 | the total change count is never negative |
| SeedbankTrees.SeedbankTree.AssignFromFragile | src/seedbanktree/evolution/tree/SeedbankTree.java:306-365 | succeeds exactly when every non-root source node has a parent, keeping the node objects and taking the source root; then the arena is the fragile copy, and otherwise a NullPointerException leaves the nodes before the first orphan copied, the root written if it lies below it, the orphan's height set and every later node as it was |
| SeedbankTrees.SeedbankTree.AssignFragileRange | src/seedbanktree/evolution/tree/SeedbankTree.java:341-365 | the helper over [lo, hi) fails exactly when a source node there has no parent; the nodes before the first orphan take the source's fields and links, the orphan only its height, and the rest stay as they were |
| SeedbankTrees.FragileCopyRootHasNoChanges | src/seedbanktree/evolution/tree/SeedbankTree.java:316-323 | after assignFromFragile the root has no parent and no changes, and every other node has the source's height, parent, type and changes |
| SeedbankTrees.SubtreeCopy | src/seedbanktree/evolution/tree/SeedbankNode.java:176-196 | copy() makes one copy per node reached through the first two children, each a copy of its original hung below another copy, the top below the given parent |
| SeedbankTrees.AssignedFrom | src/seedbanktree/evolution/tree/SeedbankNode.java:204-229 | assignFrom(nodes, src) changes only nodes reached from x, keeps the arena shaped, and never empties a child list |
| SeedbankTrees.AssignedFromLeaf | src/seedbanktree/evolution/tree/SeedbankNode.java:204-229 | assigning from a leaf takes its fields with no parent and keeps the node's own children |
| SeedbankTrees.AssignedFromTop | src/seedbanktree/evolution/tree/SeedbankNode.java:204-229 | when x is not met again below itself, assignFrom leaves x with the source's fields, no parent and the source's first two children overlaid on its own, each hung below x |
| SeedbankTrees.SeedbankTree.AssignFragileRoot | src/seedbanktree/evolution/tree/SeedbankTree.java:316-334 | the root part of assignFromFragile copies the source root's height and type, clears its parent and changes, and points its children at the arena's own copies |
| TransitionModels.InitAndValidate | src/seedbanktree/evolution/tree/TransitionModel.java:29-44 | initialisation keeps every value and lowers no bound below 0, so an in-bounds rate, K and active size are non-negative |
| TransitionModels.BackwardRate | src/seedbanktree/evolution/tree/TransitionModel.java:54-62 | the backward rate is 0 on the diagonal and equals rate between different types when K is 1 |
| TransitionModels.PopSize | src/seedbanktree/evolution/tree/TransitionModel.java:70-76 | the active deme has activeSize, as does every deme when K is 1; the dormant deme's size is finite exactly when K is not 0 |
| TransitionModels.DormantSizeTimesK | src/seedbanktree/evolution/tree/TransitionModel.java:70-76 | for a non-zero K the dormant deme's size times K is the active size |
| SeedbankTrees.FragileAssignedStops | src/seedbanktree/evolution/tree/SeedbankTree.java:341-362 | at the first orphan the copy stops: earlier non-root nodes are copied, the root only if below it, the orphan gets its height and later nodes are untouched |
| SeedbankTrees.FragileAssignedComplete | src/seedbanktree/evolution/tree/SeedbankTree.java:306-365 | with no orphan the stepwise assignment equals the fragile copy |
| SeedbankTrees.SeedbankTree.AssignFragileNodes | src/seedbanktree/evolution/tree/SeedbankTree.java:316-365 | the node loops fail exactly when some non-root source node has no parent and leave what FragileAssigned specifies |
| SeedbankTrees.SeedbankTree.AssignFragileUpper | src/seedbanktree/evolution/tree/SeedbankTree.java:316-365 | the root and the nodes above it are written, failing exactly when one of the nodes above the root has no parent |
| Simulation.UpdatePropensities | src/seedbanktree/evolution/tree/SeedbankTreeInitializer.java:222-244 | the coalescence propensity is never negative and is positive exactly when at least two active lineages remain; with no active lineage nothing coalesces or leaves the active type; with no dormant lineage nothing leaves the dormant type; non-negative (positive) rates give non-negative (positive, for a non-empty type) migration propensities |
| Simulation.PropensitiesMatch | src/seedbanktree/evolution/tree/SeedbankTreeInitializer.java:222-244 | the propensities computed from k_a and k_d are zero exactly for the reactions that have no lineage to act on |
| Simulation.TotalPositive | src/seedbanktree/evolution/tree/SeedbankTreeInitializer.java:222-244 | the total propensity is positive exactly when at least one lineage is live |
| Simulation.GetNextEvent | src/seedbanktree/evolution/tree/SeedbankTreeInitializer.java:264-292 | a drawn event is well formed, its time is the current time plus the exponential wait, and the only failure is the RuntimeException of the fall-through |
| Simulation.SelectEvent | src/seedbanktree/evolution/tree/SeedbankTreeInitializer.java:272-291 | an event chosen by U is a coalescence or a migration at the given time; it fails with a RuntimeException only past the total |
| Simulation.EventIntervals | src/seedbanktree/evolution/tree/SeedbankTreeInitializer.java:272-291 | U below the coalescence propensity selects a coalescence, the next interval the 0 -> 1 migration, the next the 1 -> 0 migration, and U at or above the total is the fall-through error |
| Simulation.NullEventIff | src/seedbanktree/evolution/tree/SeedbankTreeInitializer.java:266-270 | getNextEvent returns a NullEvent exactly when the total propensity is not positive |
| Simulation.DrawnEvent | src/seedbanktree/evolution/tree/SeedbankTreeInitializer.java:264-292 | with rates and uniform draws in range the next event never fails, is a NullEvent exactly when no lineage is live, and only selects a reaction whose lineage list is non-empty |
| Simulation.SiblingIndex | src/seedbanktree/evolution/tree/SeedbankTreeInitializer.java:367-375 | selectRandomSibling's index never equals the index to avoid and is n or n + 1 |
| Simulation.SiblingIndexCovers | src/seedbanktree/evolution/tree/SeedbankTreeInitializer.java:367-375 | every index other than the avoided one is reached by exactly one draw n in [0, size - 1) |
| Simulation.IndexOf | src/seedbanktree/evolution/tree/SeedbankTreeInitializer.java:329 | List.indexOf returns -1 exactly when the element is absent, and otherwise the first position holding it |
| Simulation.RemoveFirstMultiset | src/seedbanktree/evolution/tree/SeedbankTreeInitializer.java:328 | List.remove(Object) removes one occurrence: the multiset loses exactly that element |
| Simulation.NextWaitingType | src/seedbanktree/evolution/tree/SeedbankTreeInitializer.java:178-187 | the next sample to activate comes from a non-empty waiting list; type 0 wins ties of height, type 1 only when strictly younger; -1 exactly when both lists are empty |
| Simulation.CoalescePreserves | src/seedbanktree/evolution/tree/SeedbankTreeInitializer.java:305-330 | a coalescence joins two distinct active lineages under a fresh parent of type 1 and keeps the simulation invariant (arena shape, each node in exactly one list, live and waiting lists consistent) |
| Simulation.MigratePreserves | src/seedbanktree/evolution/tree/SeedbankTreeInitializer.java:332-343 | a migration records one change on a live lineage and moves it to the other live list, keeping the simulation invariant |
| Simulation.ActivatePreserves | src/seedbanktree/evolution/tree/SeedbankTreeInitializer.java:188-192 | activating the earliest waiting sample moves it to its live list, advances the time to its height and keeps the invariant |
| Simulation.UpdateTreePreserves | src/seedbanktree/evolution/tree/SeedbankTreeInitializer.java:302-348 | updateTree keeps the invariant, and its only failures are the tree errors of an empty list |
| Simulation.StepPreserves | src/seedbanktree/evolution/tree/SeedbankTreeInitializer.java:163-200 | one pass of the simulation loop keeps the invariant or fails with a loop error |
| Simulation.StepSucceeds | src/seedbanktree/evolution/tree/SeedbankTreeInitializer.java:163-200 | with positive rates and uniform draws in range, one pass of the loop never fails |
| Simulation.CreateLeaves | src/seedbanktree/evolution/tree/SeedbankTreeInitializer.java:130-153 | the leaves are created and sorted into the two waiting lists by increasing height; an index outside {0, 1} fails with IndexOutOfBounds, as List.get does |
| Simulation.StartIsValid | src/seedbanktree/evolution/tree/SeedbankTreeInitializer.java:130-153 | the starting state satisfies the invariant and each waiting list holds exactly the samples of its type in order of increasing height |
| Simulation.SamplesPartition | src/seedbanktree/evolution/tree/SeedbankTreeInitializer.java:130-139 | every sample lands in exactly one of the two waiting lists |
| Simulation.RunKeeps | src/seedbanktree/evolution/tree/SeedbankTreeInitializer.java:163-200 | the loop ends with no live lineage left to pair and no waiting sample, keeping the invariant; it fails only with a loop error, and only by running out of draws when the rates are positive and the draws uniform |
| Simulation.RunLoop | src/seedbanktree/evolution/tree/SeedbankTreeInitializer.java:163-200 | the while loop computes the loop function Run over the draw stream |
| Simulation.SimulateTree | src/seedbanktree/evolution/tree/SeedbankTreeInitializer.java:116-211 | the method returns exactly the result of the simulation function |
| Simulation.SimulateIsGood | src/seedbanktree/evolution/tree/SeedbankTreeInitializer.java:116-211 | a successful simulation yields a tree over the given samples: 2n - 1 nodes, leaves at their sample heights and types, a binary internal node of type 1 above them, ordered change times and consistent types, so the tree is valid |
| Simulation.NoSamplesFail | src/seedbanktree/evolution/tree/SeedbankTreeInitializer.java:202-210 | with no samples the loop never runs and the final lookup throws the RuntimeException |
| Simulation.SimulateBadType | src/seedbanktree/evolution/tree/SeedbankTreeInitializer.java:134 | the simulation fails with IndexOutOfBounds exactly when a leaf type lies outside {0, 1} |
| Simulation.SimulateOnlyRunsOut | src/seedbanktree/evolution/tree/SeedbankTreeInitializer.java:116-211 | the only failures are a bad leaf type, running out of draws, or no samples at all |
| Simulation.FinalTree | src/seedbanktree/evolution/tree/SeedbankTreeInitializer.java:202-206 | when the loop ends the sole live lineage is the root of a good tree over the samples |
| SimulationAsWritten.UpdatePropensitiesAsWritten | src/seedbanktree/evolution/tree/SeedbankTree.java:543-564 | SeedbankTree.updatePropensities fails with IndexOutOfBounds exactly when the migration list has fewer than two entries; otherwise it writes entries 0 and 1 and leaves any others alone |
| SimulationAsWritten.UpdatedTotal | src/seedbanktree/evolution/tree/SeedbankTree.java:543-564 | on a two-entry list it writes k_d m_da and k_a m_ad and returns the total including k_a(k_a - 1)/(2 N_a), which the caller's boxed coalescence propensity never receives |
| SimulationAsWritten.GetNextEventAsWritten | src/seedbanktree/evolution/tree/SeedbankTree.java:584-613 | with a list of at least two entries SeedbankTree.getNextEvent draws the same event as the Initializer's; its only failures are IndexOutOfBounds and the RuntimeException |
| SimulationAsWritten.NeverCoalesces | src/seedbanktree/evolution/tree/SeedbankTree.java:479-480 | with the caller's coalescence propensity stuck at 0, getNextEvent never returns a coalescence |
| SimulationAsWritten.CoalescenceShareFails | src/seedbanktree/evolution/tree/SeedbankTree.java:584-613 | a draw that lands in the coalescence share of the total falls through to the RuntimeException |
| SimulationAsWritten.CoalescenceShareExample | src/seedbanktree/evolution/tree/SeedbankTree.java:584-613 | a concrete draw where the code as written throws and the intended selection returns a migration |
| SimulationAsWritten.SimulateTreeAsWritten | src/seedbanktree/evolution/tree/SeedbankTree.java:434-532 | SeedbankTree.simulateTree fails with IndexOutOfBounds on every non-empty sample set (the first updatePropensities call) and with the RuntimeException on an empty one |
| Sorting.SortBy | src/seedbanktree/evolution/tree/SeedbankTreeInitializer.java:142-153 | sorting the waiting samples by height yields a sequence sorted by the key that is a permutation of the input |
| Sorting.SortByStable | src/seedbanktree/evolution/tree/SeedbankTreeInitializer.java:142-153 | the sort is stable, as Collections.sort is: for every key, the elements with that key keep their input order |
| Sorting.InsertBy | src/seedbanktree/evolution/tree/SeedbankTreeInitializer.java:142-153 | inserting into a sorted sequence keeps it sorted and adds exactly the inserted element |
| Sorting.InsertByStable | src/seedbanktree/evolution/tree/SeedbankTreeInitializer.java:142-153 | an inserted element goes after every element with an equal key |
| Sorting.SortRealsSorts | src/seedbanktree/operators/UniformizationRetypeOperator.java:221 | Arrays.sort on doubles yields a sorted permutation of the draws |
| Sorting.SortRealsAgrees | src/seedbanktree/operators/UniformizationRetypeOperator.java:221 | sorting plain reals is the keyed sort with the identity key |
| Initialisers.InitStateNodes | src/seedbanktree/evolution/tree/SeedbankTreeInitializer.java:380-387 | SeedbankTreeInitializer.initStateNodes fails with IllegalArgumentException exactly when the target is not a seedbank tree, and otherwise hands over the simulated tree |
| Initialisers.InitializedIsGood | src/seedbanktree/evolution/tree/SeedbankTreeInitializer.java:380-387 | the tree handed to a seedbank target is a good tree over the samples |
| Initialisers.SimulateTreeClearing | src/seedbanktree/evolution/tree/SeedbankTreeInitialiser.java:117-214 | the Initialiser's simulateTree runs the same loop and then clears the changes of the root's left child |
| Initialisers.ClearingFailsOnOneSample | src/seedbanktree/evolution/tree/SeedbankTreeInitialiser.java:205-209 | on a simulated tree, clearing the root's left child fails with NullPointerException exactly when there is a single sample, where the root has no children |
| Initialisers.ClearedValidIff | src/seedbanktree/evolution/tree/SeedbankTreeInitialiser.java:205-209 | with two or more samples, clearing changes only the left child's change lists, keeps the shape and time order, and leaves a valid tree exactly when that child's own type is active |
| Initialisers.DormantSum | src/seedbanktree/evolution/tree/SeedbankTreeInitialiser.java:400-408 | the inner loop adds up the lengths of the segments spent in type 0, up to the last recorded change |
| Initialisers.AlternatingSumIsDormant | src/seedbanktree/evolution/tree/SeedbankTreeInitialiser.java:400-408 | on a branch whose changes alternate between types, that sum is the dormant time the lambda recalculation credits |
| Initialisers.FractionIsRecalculated | src/seedbanktree/evolution/tree/SeedbankTreeInitialiser.java:410 | the lambda written for such a branch equals the dormant fraction of the branch |
| Initialisers.WrittenDone | src/seedbanktree/evolution/tree/SeedbankTreeInitialiser.java:397-412 | the parameter loop completes exactly when every changed non-root node index lies within both parameters; otherwise it fails with IndexOutOfBounds |
| Initialisers.WrittenValues | src/seedbanktree/evolution/tree/SeedbankTreeInitialiser.java:397-412 | when the loop completes, each changed node gets indicator 1 and lambda equal to its dormant fraction, and every other entry is unchanged |
| Initialisers.WriteParameters | src/seedbanktree/evolution/tree/SeedbankTreeInitialiser.java:397-412 | the array loop writes the indicator and then the lambda of each changed node, stopping with IndexOutOfBounds at the first index outside an array and keeping the writes made so far |
| Initialisers.InitialiserInitStateNodes | src/seedbanktree/evolution/tree/SeedbankTreeInitialiser.java:383-413 | the Initialiser fails on a non-seedbank target, returns without writing when either parameter is missing, and otherwise writes the parameters as the loop does |
| Initialisers.InitialisedParameters | src/seedbanktree/evolution/tree/SeedbankTreeInitialiser.java:205-209 | on a simulated tree with at least two samples and parameters covering every node, the loop completes and the root's left child, just cleared, is not rewritten |
| SeedbankTreesX.TimesAreValidX | src/seedbanktree/evolution/tree/SeedbankTreeX.java:482-492 | the recursive loop accepts exactly when no child anywhere below the node is higher than its parent |
| SeedbankTreesX.TypesAreValidX | src/seedbanktree/evolution/tree/SeedbankTreeX.java:495-511 | the recursive loop accepts exactly when every child has the type below the change of a MIGRATION parent and the parent's own type under any other parent |
| SeedbankTreesX.IsValidX | src/seedbanktree/evolution/tree/SeedbankTreeX.java:477-479 | isValid accepts exactly when the times check and then the types check accept from the root |
| SeedbankTreesX.LocalGivesValidX | src/seedbanktree/evolution/tree/SeedbankTreeX.java:477-511 | an arena in which every node is no higher than, and has the child type demanded by, its parent passes both recursive checks from every node |
| SeedbankTreesX.ValidXDescends | src/seedbanktree/evolution/tree/SeedbankTreeX.java:482-511 | when both checks accept at a node they hold for each child's link and again from each child |
| SeedbankTreesX.CoalesceXShape | src/seedbanktree/evolution/tree/SeedbankTreeX.java:710-736 | a coalescence succeeds exactly when two active lineages exist and the daughter survives the removal of the son; it appends one COALESCENT node of type 1 at the event time over daughter and son and leaves one active lineage fewer |
| SeedbankTreesX.MigrateXShape | src/seedbanktree/evolution/tree/SeedbankTreeX.java:738-776 | a migration succeeds exactly when the source deme has a lineage; it appends a MIGRATION node of the destination type, recording the source type below it, over the daughter and a new DUMMY node of the source type at the same height, and the MIGRATION node joins the destination deme |
| SeedbankTreesX.CoalesceXKeepsTypes | src/seedbanktree/evolution/tree/SeedbankTreeX.java:710-736 | after a coalescence every live lineage has its deme's type and the arena still satisfies the local time and type conditions |
| SeedbankTreesX.MigrateXKeepsTypes | src/seedbanktree/evolution/tree/SeedbankTreeX.java:738-776 | after a migration every live lineage has its deme's type and the arena still satisfies the local time and type conditions |
| SeedbankTreesX.UpdateTreeXKeepsTypes | src/seedbanktree/evolution/tree/SeedbankTreeX.java:707-781 | every successful updateTree keeps the lists typed and the arena locally valid, so the tree it builds passes isValid |
| Density.SeedbankTreeDensity.UpdateEventSequence | src/seedbanktree/distributions/SeedbankTreeDensity.java:179-271 | updateEventSequence lists every sample, coalescence and type change of the tree exactly once, from the tips to the root and ending at the root, each with the lineage counts [dormant, active] of the branches open just below it; the times never decrease when every branch is time-ordered; it fails only with the NullPointer or IndexOutOfBounds of a non-binary node or a type outside {0, 1} |
| Density.SeedbankTreeDensity.CalculateLogP | src/seedbanktree/distributions/SeedbankTreeDensity.java:67-173 | calculateLogP returns -infinity untouched when validity is checked, the tree is dirty and it is invalid; otherwise it rebuilds the event list and stores and returns the sum of one term per interval and one per event |
| Density.SumLogP | src/seedbanktree/distributions/SeedbankTreeDensity.java:82-170 | the loop over events 1 .. n-1 computes the log density: -delta_t times the total rate for each positive interval, log(1/theta) for a coalescence, the log of the backward rate for a type change, nothing for a sample |
| Density.LogPIgnoresActiveSize | src/seedbanktree/distributions/SeedbankTreeDensity.java:91-94 | because theta is overwritten with 1, the density does not depend on the active deme size at all |
| Density.LogPFinite | src/seedbanktree/distributions/SeedbankTreeDensity.java:67-173 | with positive rates and no type change from a type to itself, the log density is finite |
| Density.LogPNeverNaN | src/seedbanktree/distributions/SeedbankTreeDensity.java:67-173 | with non-negative rates the log density is finite or -infinity, never NaN |
| Density.SelfChangeRejects | src/seedbanktree/distributions/SeedbankTreeDensity.java:133-136 | a recorded type change from a type to itself has backward rate 0 and drives the log density to -infinity |
| Density.CountsAreLineages | src/seedbanktree/distributions/SeedbankTreeDensity.java:190-264 | each recorded lineage count is a pair of non-negative numbers summing to the number of branches open below the event, [0, 0] below the last sample |
| Density.NextEvent | src/seedbanktree/distributions/SeedbankTreeDensity.java:202-235 | the scan picks an open branch whose pending event is latest, the first such one on ties, and builds the event that branch ends with |
| DensityEvents.KeyIndex | src/seedbanktree/distributions/SeedbankTreeDensity.java:187 | the change-index map lookup: -1 exactly when no open branch belongs to the node, otherwise the entry for that node |
| DensityEvents.PutMembers | src/seedbanktree/distributions/SeedbankTreeDensity.java:244-245 | HashMap.put replaces any entry for the node and adds the new one, keeping one entry per node |
| DensityEvents.RemoveKeyMembers | src/seedbanktree/distributions/SeedbankTreeDensity.java:243 | HashMap.remove drops exactly the entries of the node |
| DensityEvents.CountsCoverOpen | src/seedbanktree/distributions/SeedbankTreeDensity.java:190-193 | the two counts together number the open branches |
| DensityWalk.MigrateCounts | src/seedbanktree/distributions/SeedbankTreeDensity.java:254-258 | handling a type change moves one lineage from the type above it to the type below it |
| DensityWalk.SampleCounts | src/seedbanktree/distributions/SeedbankTreeDensity.java:249-251 | handling a sample removes one lineage of its type |
| DensityWalk.CoalesceCounts | src/seedbanktree/distributions/SeedbankTreeDensity.java:239-246 | handling a coalescence removes the parent's branch and opens the two child branches |
| DensityWalk.WalkStart | src/seedbanktree/distributions/SeedbankTreeDensity.java:186-193 | the walk starts with the root's branch open and one lineage of the root's type |
| DensityWalk.Finished | src/seedbanktree/distributions/SeedbankTreeDensity.java:267-269 | reversing the lists orders the events from the tips to the root, each with the branches open below it, and the times never decrease when every branch is time-ordered |
| DensityX.SeedbankTreeDensityX.UpdateEventSequence | src/seedbanktree/distributions/SeedbankTreeDensityX.java:140-231 | the SeedbankTreeX event list holds every node of the tree once, from the tips to the root, each with the lineage counts of the nodes live below it; it fails only on a null child, a DUMMY node reached by the scan or a type outside {0, 1} |
| DensityX.SeedbankTreeDensityX.CalculateLogP | src/seedbanktree/distributions/SeedbankTreeDensityX.java:76-134 | the X density returns -infinity when validity is checked and the tree is invalid; otherwise it stores and returns the sum of interval and event terms with the active deme size N_a as the coalescent scaling |
| DensityX.SumLogPX | src/seedbanktree/distributions/SeedbankTreeDensityX.java:90-131 | the loop computes the X log density, with k_a(k_a - 1)/(2 N_a) in each interval rate and log(1/N) for a coalescence of type N |
| DensityX.NextEventX | src/seedbanktree/distributions/SeedbankTreeDensityX.java:140-231 | the scan picks a live node with the latest height and builds its event; it fails with NullPointer on a missing child and with a RuntimeException on a DUMMY node |
| DensityX.LogPFiniteX | src/seedbanktree/distributions/SeedbankTreeDensityX.java:76-134 | with a positive active deme size, positive rates and no self type change, the X log density is finite |
| DensityX.LogPNeverNaNX | src/seedbanktree/distributions/SeedbankTreeDensityX.java:76-134 | with a positive active deme size and non-negative rates the X log density is never NaN |
| DensityX.EmptyActiveDemeIsNaN | src/seedbanktree/distributions/SeedbankTreeDensityX.java:106 | with active deme size 0, an interval with at most one active lineage computes 0/0 and makes the X log density NaN |
| DensityX.UnitSizesAgree | src/seedbanktree/distributions/SeedbankTreeDensityX.java:99-117 | with active deme size 1 and K = 1 the X density equals the density with theta fixed at 1 |
| DensityX.SelfChangeRejectsX | src/seedbanktree/distributions/SeedbankTreeDensityX.java:120-124 | a type change from a type to itself drives the X log density to -infinity |
| DensityX.CountsAreLiveNodes | src/seedbanktree/distributions/SeedbankTreeDensityX.java:140-231 | each X lineage count is a pair of non-negative numbers summing to the number of nodes live below the event |
| DensityXWalk.LiveAfter | src/seedbanktree/distributions/SeedbankTreeDensityX.java:140-231 | after an event at node n the live set loses n and gains the children n opens |
| DensityXWalk.CountsAfterTally | src/seedbanktree/distributions/SeedbankTreeDensityX.java:140-231 | the updated counts are the type tallies of the new live set |
| DensityXWalk.FinishedX | src/seedbanktree/distributions/SeedbankTreeDensityX.java:140-231 | reversing the lists orders the X events from the tips to the root with their live sets, chronologically on a locally timed tree |
| Density.HandleCoalesce | src/seedbanktree/distributions/SeedbankTreeDensity.java:239-246 | a coalescence either fails only on a tree with a missing child or a type outside 0/1, or extends the walk: the node's branch closes, its children open and the count of its type goes up by one |
| Density.HandleSample | src/seedbanktree/distributions/SeedbankTreeDensity.java:249-251 | a sample either fails only on a type outside 0/1, or extends the walk: the leaf's branch closes and the count of its type goes down by one |
| Density.HandleMigrate | src/seedbanktree/distributions/SeedbankTreeDensity.java:254-258 | a type change either fails only on a type outside 0/1, or extends the walk: one lineage moves from the type above the change to the type below and the branch's cursor moves one change down |
| Density.HandleNext | src/seedbanktree/distributions/SeedbankTreeDensity.java:195-264 | one round of the loop handles the latest open event and extends the walk, and the set of events not yet handled shrinks; failures happen only on malformed trees |
| Density.WalkTree | src/seedbanktree/distributions/SeedbankTreeDensity.java:186-264 | the loop, started from the root alone, either fails only on a malformed tree or closes every branch and leaves a complete walk with its events and lineage counts |
| Density.SeedbankTreeDensity.constructor | src/seedbanktree/distributions/SeedbankTreeDensity.java:56-65 | initAndValidate reads checkValidity and starts with empty event and lineage-count lists |
| DensityX.TallyAfterX | src/seedbanktree/distributions/SeedbankTreeDensityX.java:194-219 | on a tree whose counts are exact, the counts an event leaves are those of the live set it leaves |
| DensityX.HandleCoalesceX | src/seedbanktree/distributions/SeedbankTreeDensityX.java:196-205 | a coalescence removes the node, adds both children and raises the count of its type, or fails only on a malformed tree |
| DensityX.HandleSampleX | src/seedbanktree/distributions/SeedbankTreeDensityX.java:207-210 | a sample removes the node and lowers the count of its type, or fails only on a malformed tree |
| DensityX.HandleMigrateX | src/seedbanktree/distributions/SeedbankTreeDensityX.java:212-219 | a migration replaces the node by its daughter and moves one lineage from destType to type, or fails only on a malformed tree |
| DensityX.ScanFailure | src/seedbanktree/distributions/SeedbankTreeDensityX.java:188-191 | the scan's RuntimeException for a dummy or a missing node can only happen on a malformed tree |
| DensityX.HandleNextX | src/seedbanktree/distributions/SeedbankTreeDensityX.java:157-224 | one round scans the live set for the latest event and handles it, extending the walk and shrinking the set of unvisited nodes; failures happen only on malformed trees |
| DensityX.WalkTreeX | src/seedbanktree/distributions/SeedbankTreeDensityX.java:145-225 | the loop, started from the root alone, either fails only on a malformed tree or empties the live set and leaves a complete walk |
| DensityX.SeedbankTreeDensityX.constructor | src/seedbanktree/distributions/SeedbankTreeDensityX.java:62-73 | initAndValidate reads checkValidity and starts with empty event and lineage-count lists |
| TreeSurgery.RecalculateLambda | src/seedbanktree/operators/SeedbankTreeOperator.java:80-99 | recalculateLambda leaves the tree alone, returns without writing when either parameter is missing, and otherwise writes the node's indicator and dormant fraction and nothing else |
| TreeSurgery.FractionInUnit | src/seedbanktree/operators/SeedbankTreeOperator.java:87-98 | on a time-ordered branch the dormant fraction is finite and lies in [0, 1], and the indicator is 0 exactly when the fraction is 0 |
| TreeSurgery.ChangeCreditedBounds | src/seedbanktree/operators/SeedbankTreeOperator.java:87-94 | the dormant length the loop credits is between 0 and the span from the node to its last change |
| TreeSurgery.DormantIsTypeLength | src/seedbanktree/operators/SeedbankTreeOperator.java:87-94 | the length credited to changes into type 1 is the time spent dormant below the last change, as getTotalLength(0) counts it |
| TreeSurgery.DormantIsCreditedToZero | src/seedbanktree/operators/SeedbankTreeOperator.java:87-94 | crediting the stretch below each change to type 1 equals crediting the stretch above each change to type 0 |
| TreeSurgery.OtherChildOfPair | src/seedbanktree/operators/SeedbankTreeOperator.java:50-56 | getOtherChild of a two-child parent returns the child that is not the given one |
| TreeSurgery.ReplaceAt | src/seedbanktree/operators/SeedbankTreeOperator.java:65-70 | replace removes the child from the node's children and appends the replacement, changing nothing else |
| TreeSurgery.AddChangeAt | src/seedbanktree/evolution/tree/SeedbankNode.java:67-74 | addChange on one node of the tree changes only that node's change lists |
| TreeSurgery.InsertChangeAt | src/seedbanktree/evolution/tree/SeedbankNode.java:108-117 | insertChange on one node of the tree changes only that node |
| TreeSurgery.RemoveChangeAt | src/seedbanktree/evolution/tree/SeedbankNode.java:120-130 | removeChange on one node of the tree changes only that node |
| TreeSurgery.SetChangeTimeAt | src/seedbanktree/evolution/tree/SeedbankNode.java:85-88 | setChangeTime on one node of the tree changes only that node |
| TreeSurgery.SetNodeTypeAt | src/seedbanktree/evolution/tree/SeedbankNode.java:57-64 | setNodeType on one node accepts exactly the types 0 and 1 and otherwise leaves the tree alone |
| TreeSurgery.AppendChangesFrom | src/seedbanktree/operators/SeedbankTreeOperator.java:125-129 | the loop appends the changes of one node, from a given index on, to another node |
| TreeSurgery.MergeIntoSister | src/seedbanktree/operators/SeedbankTreeOperator.java:121-132 | the sister takes over the parent's changes and the grandparent's child slot |
| TreeSurgery.DisconnectBranch | src/seedbanktree/operators/SeedbankTreeOperator.java:112-178 | disconnectBranch produces the arena, outcome and parameters of the disconnection function, leaving a parameter alone when the other is missing |
| TreeSurgery.DisconnectWithLambdas | src/seedbanktree/operators/SeedbankTreeOperator.java:113-150 | the branch with both parameters present: merge, clear the parent and the node, and recalculate the sister, the parent and the node |
| TreeSurgery.FindSplit | src/seedbanktree/operators/SeedbankTreeOperator.java:233-236 | the split index is the first change strictly later than the new time; every earlier change is no later |
| TreeSurgery.FirstAbove | src/seedbanktree/operators/SeedbankTreeOperator.java:233-236 | the split index lies within the change list, every change before it is at or below the time and the one at it is above |
| TreeSurgery.SplitBranch | src/seedbanktree/operators/SeedbankTreeOperator.java:227-244 | the parent moves to the new time and takes the destination's changes above it, which the destination loses |
| TreeSurgery.AttachBranch | src/seedbanktree/operators/SeedbankTreeOperator.java:246-253 | the parent replaces the destination under the destination's old parent and takes it as the other child |
| TreeSurgery.ConnectBranch | src/seedbanktree/operators/SeedbankTreeOperator.java:217-307 | connectBranch produces the arena, outcome and parameters of the connection function |
| TreeSurgery.ConnectPlain | src/seedbanktree/operators/SeedbankTreeOperator.java:266-306 | without parameters the parent also takes the type the destination has at the split |
| TreeSurgery.ConnectWithLambdas | src/seedbanktree/operators/SeedbankTreeOperator.java:219-263 | with both parameters the destination, parent and node are recalculated and the parent's type is left as it was |
| TreeSurgery.DisconnectBranchFromRoot | src/seedbanktree/operators/SeedbankTreeOperator.java:186-206 | disconnectBranchFromRoot produces the arena and outcome of the root disconnection function |
| TreeSurgery.ConnectBranchToRoot | src/seedbanktree/operators/SeedbankTreeOperator.java:317-343 | connectBranchToRoot produces the arena and outcome of the root connection function |
| SurgeryProperties.Sister | src/seedbanktree/operators/SeedbankTreeOperator.java:50-56 | the sister is a child of the node's parent other than the node, as getOtherChild returns it |
| SurgeryProperties.DisconnectRefusal | src/seedbanktree/operators/SeedbankTreeOperator.java:117-119 | disconnectBranch fails with IllegalArgumentException exactly when the node or its parent is the root, and then changes nothing |
| SurgeryProperties.DisconnectShape | src/seedbanktree/operators/SeedbankTreeOperator.java:112-178 | the disconnection moves the parent's changes onto the end of the sister's, hangs the sister from the grandparent, clears the parent, and clears the node too when the parameters are present |
| SurgeryProperties.DisconnectRecalculates | src/seedbanktree/operators/SeedbankTreeOperator.java:134-142 | with parameters, exactly the sister, the parent and the node get their recalculated indicator and fraction |
| SurgeryProperties.DisconnectKeepsOrder | src/seedbanktree/operators/SeedbankTreeOperator.java:121-132 | joining the parent's branch onto the sister's keeps the changes time-ordered |
| SurgeryProperties.ConnectRefusal | src/seedbanktree/operators/SeedbankTreeOperator.java:222-224 | connectBranch fails with IllegalArgumentException exactly when the node or the destination is the root, or (without parameters) the type at the split is not 0 or 1; a refused root case changes nothing |
| SurgeryProperties.ConnectShapeWithLambdas | src/seedbanktree/operators/SeedbankTreeOperator.java:219-263 | with parameters, the connection is the split at the new time followed by the re-attachment |
| SurgeryProperties.ConnectShapePlain | src/seedbanktree/operators/SeedbankTreeOperator.java:266-306 | without parameters, the connection is the split, the parent typed as the destination at the split, and the re-attachment |
| SurgeryProperties.ConnectSplitsChanges | src/seedbanktree/operators/SeedbankTreeOperator.java:230-248 | the destination's changes are divided at the new time: the destination keeps those at or below it and the parent takes those above it, in order, and the parent sits at the new time between the destination and its old parent |
| SurgeryProperties.ConnectKeepsOrder | src/seedbanktree/operators/SeedbankTreeOperator.java:230-248 | when the new time lies on the destination branch, both resulting branches keep their changes time-ordered |
| SurgeryProperties.ConnectRecalculates | src/seedbanktree/operators/SeedbankTreeOperator.java:255-257 | with parameters, exactly the destination, the parent and the node get their recalculated indicator and fraction |
| SurgeryProperties.ConnectKeepsOthers | src/seedbanktree/operators/SeedbankTreeOperator.java:217-307 | no node other than the destination and the parent changes its parent, height or changes |
| SurgeryProperties.DisconnectFromRootRefusal | src/seedbanktree/operators/SeedbankTreeOperator.java:189-191 | disconnectBranchFromRoot fails with IllegalArgumentException exactly when the node is the root or its parent is not, and then changes nothing |
| SurgeryProperties.DisconnectFromRootShape | src/seedbanktree/operators/SeedbankTreeOperator.java:193-200 | the sister becomes a root with no changes and the old root keeps only the node as its child |
| SurgeryProperties.ConnectToRootRefusal | src/seedbanktree/operators/SeedbankTreeOperator.java:320-322 | connectBranchToRoot fails with IllegalArgumentException exactly when the node is the root or the old root is not a root, and then changes nothing |
| SurgeryProperties.ConnectToRootShape | src/seedbanktree/operators/SeedbankTreeOperator.java:324-337 | the node's parent becomes the root at the new time with the old root in place of the other child, and the old root hangs from it |
| SurgeryProperties.DisconnectedAttachable | src/seedbanktree/operators/SeedbankTreeOperator.java:112-307 | after a disconnection of a node in a time tree, any destination outside the node's path can take the node back |
| TreeSurgery.ClearAt | src/seedbanktree/evolution/tree/SeedbankNode.java:77-82 | clearChanges on one node empties its change lists and count and changes nothing else in the tree |
| TreeSurgery.TruncateAt | src/seedbanktree/evolution/tree/SeedbankNode.java:97-106 | truncateChanges on one node keeps its first m changes (all when there are fewer) and changes nothing else |
| TreeSurgery.SetHeightAt | src/seedbanktree/operators/SeedbankTreeOperator.java:228 | setHeight on one node changes only that node's height |
| TreeSurgery.SetParentAt | src/seedbanktree/operators/SeedbankTreeOperator.java:248 | setParent on one node changes only that node's parent link |
| TreeSurgery.SetChildrenAt | src/seedbanktree/operators/SeedbankTreeOperator.java:249-253 | setLeft/setRight on one node change only that node's children |
| TreeSurgery.ClearAndRecalculate | src/seedbanktree/operators/SeedbankTreeOperator.java:137-142 | clearing a node's changes and then recalculating it leaves the tree and parameters ClearRecalc gives, keeping the parameters fitted to the tree |
| TreeSurgery.DivideChanges | src/seedbanktree/operators/SeedbankTreeOperator.java:238-244 | the parent takes the destination's changes from split on and the destination keeps only those before, as Divided specifies |
| TreeSurgery.RecalculateThree | src/seedbanktree/operators/SeedbankTreeOperator.java:255-257 | the three recalculations leave the tree unchanged and the parameters recalculated at the three nodes in order |
| Retype.Candidate | src/seedbanktree/operators/UniformizationRetypeOperator.java:228-239 | the forward-backward choice is a binary type or nothing (the fall-through) |
| Retype.CandidateIsFirstAbove | src/seedbanktree/operators/UniformizationRetypeOperator.java:228-242 | type 0 is chosen exactly when the draw is below R[prev,0]·R^(n-i)[0,end], type 1 exactly when it lies between that and the sum over both types, and nothing (the FB failure) exactly when the draw is at or above both |
| Retype.Forward | src/seedbanktree/operators/UniformizationRetypeOperator.java:223-256 | a completed forward-backward run gives exactly nVirt binary types; it fails for lack of draws only when fewer than nVirt draws remain |
| Retype.ForwardChoices | src/seedbanktree/operators/UniformizationRetypeOperator.java:226-256 | every type of a completed run is the choice Candidate makes at its step from the previous type and its own draw |
| Retype.SampleTypes | src/seedbanktree/operators/UniformizationRetypeOperator.java:223-256 | the sampling loop returns what Forward specifies, including the FB-failure abort |
| Retype.VirtualTimes | src/seedbanktree/operators/UniformizationRetypeOperator.java:217-221 | the virtual event times are sorted and there are nVirt of them |
| Retype.VirtualTimesWithin | src/seedbanktree/operators/UniformizationRetypeOperator.java:218-220 | with draws in [0, 1) and a positive branch length every virtual time lies on the branch, at or above the node and below its parent |
| Retype.SampleTimes | src/seedbanktree/operators/UniformizationRetypeOperator.java:217-221 | the time loop followed by the sort returns VirtualTimes |
| Retype.CollapsedAlternates | src/seedbanktree/operators/UniformizationRetypeOperator.java:265-278 | dropping the virtual events that do not change type leaves a path in which each change differs from the type before it |
| Retype.CollapsedEndType | src/seedbanktree/operators/UniformizationRetypeOperator.java:265-278 | collapsing keeps the type the path ends in |
| Retype.CollapsedBinary | src/seedbanktree/operators/UniformizationRetypeOperator.java:265-278 | collapsing binary types leaves binary types |
| Retype.CollapsedTimes | src/seedbanktree/operators/UniformizationRetypeOperator.java:265-278 | every kept change time is one of the virtual times, and sorted virtual times stay sorted |
| Retype.BranchTypeProb | src/seedbanktree/operators/UniformizationRetypeOperator.java:295-336 | the path probability fails (no parent) exactly at the root, and is negative infinity when the end-point probability is rubbish (outside [0, 1]) |
| Retype.GetBranchTypeProb | src/seedbanktree/operators/UniformizationRetypeOperator.java:295-336 | the loop over the node's changes returns BranchTypeProb of the current tree |
| Retype.Drafted | src/seedbanktree/operators/UniformizationRetypeOperator.java:188-256 | the drafting phase stops only with a missing parent, exhausted draws or the negative-infinity abort (rubbish Pba, nVirt < 0, FB failure), and otherwise gives nVirt types and times on a non-root branch |
| Retype.Sampled | src/seedbanktree/operators/UniformizationRetypeOperator.java:188-287 | retyping fails only on a missing parent or exhausted draws |
| Retype.Written | src/seedbanktree/operators/UniformizationRetypeOperator.java:262-269 | writing a path replaces the node's change lists and count and leaves every other node as it was |
| Retype.WritePath | src/seedbanktree/operators/UniformizationRetypeOperator.java:262-279 | clearing the node and adding the collapsed changes makes the node's changes exactly the collapsed path, with the log probability of its terms plus the closing term |
| Retype.CollapseAt | src/seedbanktree/operators/UniformizationRetypeOperator.java:265-279 | on a cleared node the collapse loop appends exactly the collapsed path and sums its terms |
| Retype.CollapseOnto | src/seedbanktree/operators/UniformizationRetypeOperator.java:265-279 | on the node object the loop stores the collapsed types, times and count and returns the summed terms |
| Retype.RetypeBranch | src/seedbanktree/operators/UniformizationRetypeOperator.java:108-287 | retypeBranch returns the sampled log probability and, when a path was sampled, leaves the tree with that path on the node and the node's lambda and indicator recalculated; on every abort the tree and parameters are unchanged |
| Retype.DraftEvents | src/seedbanktree/operators/UniformizationRetypeOperator.java:188-256 | the read-only drafting phase returns Drafted of the current tree |
| Retype.DraftedOn | src/seedbanktree/operators/UniformizationRetypeOperator.java:205-256 | on branch values the drafting stops only with exhausted draws or an abort, and otherwise gives nVirt binary types with nVirt times |
| Retype.DraftOn | src/seedbanktree/operators/UniformizationRetypeOperator.java:205-256 | the drafting method returns DraftedOn |
| Retype.WriteAndRecalculate | src/seedbanktree/operators/UniformizationRetypeOperator.java:258-286 | writing the collapsed path, recalculating lambda and subtracting log Pba gives the path and its probability |
| Retype.RetypedPathProb | src/seedbanktree/operators/UniformizationRetypeOperator.java:258-336 | the probability retypeBranch returns for a new path equals getBranchTypeProb of the tree it leaves |
| ConstrainedRetype.DormantRuns | src/seedbanktree/operators/UniformizationRetypeOperator.java:434-442 | the number of dormant periods counted is at most the number of types |
| ConstrainedRetype.CountDormant | src/seedbanktree/operators/UniformizationRetypeOperator.java:434-442 | the counting loop returns DormantRuns: the number of changes from dormant (0) to active (1) |
| ConstrainedRetype.Stretches | src/seedbanktree/operators/UniformizationRetypeOperator.java:459-468 | cutting a total at n breaks gives n + 1 stretches |
| ConstrainedRetype.CutStretches | src/seedbanktree/operators/UniformizationRetypeOperator.java:459-468 | the dormant-length loop returns Stretches |
| ConstrainedRetype.StretchesSum | src/seedbanktree/operators/UniformizationRetypeOperator.java:459-468 | the stretches add up to the total they were cut from |
| ConstrainedRetype.StretchesNonNegative | src/seedbanktree/operators/UniformizationRetypeOperator.java:453-468 | with ascending breaks in [0, 1) and a non-negative total every stretch is non-negative |
| ConstrainedRetype.Interleaved | src/seedbanktree/operators/UniformizationRetypeOperator.java:491-498 | combining gives as many lengths as dormant and active stretches together |
| ConstrainedRetype.Interleave | src/seedbanktree/operators/UniformizationRetypeOperator.java:491-498 | the combining loop returns Interleaved |
| ConstrainedRetype.InterleavedSum | src/seedbanktree/operators/UniformizationRetypeOperator.java:491-500 | the combined lengths add up to the dormant plus the active stretches (the sum the assert at line 500 expects) |
| ConstrainedRetype.PairedAt | src/seedbanktree/operators/UniformizationRetypeOperator.java:493-496 | position 2i holds the i-th stretch of the start type and position 2i + 1 that of the other type |
| ConstrainedRetype.DormantPairs | src/seedbanktree/operators/UniformizationRetypeOperator.java:491-496 | the first 2j combined lengths hold exactly j dormant stretches, whose total is the first j dormant lengths |
| ConstrainedRetype.DormantBeforeLast | src/seedbanktree/operators/UniformizationRetypeOperator.java:491-498 | all dormant stretches come before the last combined length |
| ConstrainedRetype.Flips | src/seedbanktree/operators/UniformizationRetypeOperator.java:509-521 | the change types written are one per boundary between stretches |
| ConstrainedRetype.Arrivals | src/seedbanktree/operators/UniformizationRetypeOperator.java:509-521 | the change times are one per boundary between stretches |
| ConstrainedRetype.FlipsEnd | src/seedbanktree/operators/UniformizationRetypeOperator.java:509-521 | after n flips the path ends in the start type when n is even and in the other type when n is odd |
| ConstrainedRetype.FlipsAlternate | src/seedbanktree/operators/UniformizationRetypeOperator.java:513-519 | the flipped types are binary and each differs from the one before it |
| ConstrainedRetype.FlipsCredited | src/seedbanktree/operators/UniformizationRetypeOperator.java:509-523 | the time the flipped path spends dormant, as recalculateLambda credits it, is the total of the dormant stretches laid out |
| ConstrainedRetype.FlipsRuns | src/seedbanktree/operators/UniformizationRetypeOperator.java:434-442 | counting the dormant periods of a flipped path gives the number of dormant places it has |
| ConstrainedRetype.ArrivalsReach | src/seedbanktree/operators/UniformizationRetypeOperator.java:511 | each change time is the node height plus the lengths laid out before it |
| ConstrainedRetype.ArrivalsAscend | src/seedbanktree/operators/UniformizationRetypeOperator.java:509-521 | non-negative lengths give change times in order from the node's height |
| ConstrainedRetype.LaidOut | src/seedbanktree/operators/UniformizationRetypeOperator.java:365-498 | laying out a branch halts only with an early result, and otherwise gives at least one length |
| ConstrainedRetype.Split | src/seedbanktree/operators/UniformizationRetypeOperator.java:443-498 | with at least one dormant period, laying out halts only for exhausted draws or a missing lambda, and otherwise gives 2·numDormant + startType lengths |
| ConstrainedRetype.Cut | src/seedbanktree/operators/UniformizationRetypeOperator.java:453-498 | the cut gives 2·d + startType + 2 lengths from d + 1 dormant and d + 1 + startType active stretches |
| ConstrainedRetype.Laying | src/seedbanktree/operators/UniformizationRetypeOperator.java:353-498 | on a tree the layout halts early only, or gives at least one length on a non-root branch |
| ConstrainedRetype.LaidPath | src/seedbanktree/operators/UniformizationRetypeOperator.java:502-529 | a layout gives a path whose types and times have the same length |
| ConstrainedRetype.Constrained | src/seedbanktree/operators/UniformizationRetypeOperator.java:349-530 | a rebuilt path has as many change types as change times |
| ConstrainedRetype.ConstrainedRetypeBranch | src/seedbanktree/operators/UniformizationRetypeOperator.java:349-530 | constrainedRetypeBranch returns the specified log probability and, when a path was built, leaves that path on the node with lambda and indicator recalculated; on every abort the tree and parameters are unchanged |
| ConstrainedRetype.Conclude | src/seedbanktree/operators/UniformizationRetypeOperator.java:502-529 | writing a layout, or returning its early result, is what LaidPath specifies |
| ConstrainedRetype.LayBranch | src/seedbanktree/operators/UniformizationRetypeOperator.java:353-498 | the read-only layout phase returns Laying of the current tree and the node's lambda |
| ConstrainedRetype.LayOut | src/seedbanktree/operators/UniformizationRetypeOperator.java:365-498 | the layout method returns LaidOut |
| ConstrainedRetype.SplitOut | src/seedbanktree/operators/UniformizationRetypeOperator.java:443-498 | the lambda lookup and cut return Split |
| ConstrainedRetype.CutOutLengths | src/seedbanktree/operators/UniformizationRetypeOperator.java:453-498 | the two cutting loops and the combining loop return Cut |
| ConstrainedRetype.EmitAndRecalculate | src/seedbanktree/operators/UniformizationRetypeOperator.java:502-529 | writing the flipped path and recalculating lambda gives the path and its probability |
| ConstrainedRetype.WriteFlips | src/seedbanktree/operators/UniformizationRetypeOperator.java:506-522 | clearing the node and adding one flip per boundary makes its changes the flipped types at the arrival times, with the summed terms |
| ConstrainedRetype.EmitAt | src/seedbanktree/operators/UniformizationRetypeOperator.java:509-522 | on a cleared node the loop appends the flipped path |
| ConstrainedRetype.EmitOnto | src/seedbanktree/operators/UniformizationRetypeOperator.java:509-522 | on the node object the loop stores the flipped types, the arrival times and their count and returns the summed terms |
| ConstrainedProperties.PlacesBeforeLast | src/seedbanktree/operators/UniformizationRetypeOperator.java:491-498 | before the last length there are exactly numDormant dormant places |
| ConstrainedProperties.FlipsEndActive | src/seedbanktree/operators/UniformizationRetypeOperator.java:497-498 | an odd number of flips from dormant, or an even number from active, ends active |
| ConstrainedProperties.RebuiltShape | src/seedbanktree/operators/UniformizationRetypeOperator.java:434-498 | the rebuilt path has exactly the counted number of dormant periods, binary alternating types, and ends active |
| ConstrainedProperties.CutFills | src/seedbanktree/operators/UniformizationRetypeOperator.java:459-500 | the cut lengths add up to the branch length |
| ConstrainedProperties.CutDormantTime | src/seedbanktree/operators/UniformizationRetypeOperator.java:459-523 | the dormant time of the rebuilt path is the dormant length L·lambda |
| ConstrainedProperties.InterleavedDormantTime | src/seedbanktree/operators/UniformizationRetypeOperator.java:491-523 | the dormant time of the rebuilt path is the sum of the dormant stretches |
| ConstrainedProperties.SortedStretchesNonNegative | src/seedbanktree/operators/UniformizationRetypeOperator.java:453-468 | sorting the draws before cutting makes every stretch non-negative |
| ConstrainedProperties.InterleavedNonNegative | src/seedbanktree/operators/UniformizationRetypeOperator.java:491-498 | combining non-negative stretches gives non-negative lengths |
| ConstrainedProperties.CutNonNegative | src/seedbanktree/operators/UniformizationRetypeOperator.java:453-498 | with 0 ≤ dormant length ≤ L and draws in [0, 1) every cut length is non-negative |
| ConstrainedProperties.SplitRebuilt | src/seedbanktree/operators/UniformizationRetypeOperator.java:443-498 | a successful split uses the node's lambda and rebuilds the branch with the counted dormant periods and dormant time L·lambda |
| ConstrainedProperties.ScaledWithin | src/seedbanktree/operators/UniformizationRetypeOperator.java:459-479 | with lambda in [0, 1] the dormant length lies between 0 and L |
| ConstrainedProperties.SplitNonNegative | src/seedbanktree/operators/UniformizationRetypeOperator.java:443-498 | a successful split gives non-negative lengths |
| ConstrainedProperties.LaidOutRebuilt | src/seedbanktree/operators/UniformizationRetypeOperator.java:365-498 | a successful layout had Pba in range, a lambda and a counted number of dormant periods, and rebuilds the branch from them |
| ConstrainedProperties.LaidOutNonNegative | src/seedbanktree/operators/UniformizationRetypeOperator.java:365-498 | a successful layout gives non-negative lengths |
| ConstrainedProperties.LayingRebuilt | src/seedbanktree/operators/UniformizationRetypeOperator.java:353-498 | on a tree, a successful layout rebuilds the branch above the node |
| ConstrainedProperties.LayingNonNegative | src/seedbanktree/operators/UniformizationRetypeOperator.java:353-498 | on a time-ordered branch, a successful layout gives non-negative lengths |
| ConstrainedProperties.LaidShape | src/seedbanktree/operators/UniformizationRetypeOperator.java:502-521 | the written path keeps the counted number of dormant periods, alternates binary types and ends active |
| ConstrainedProperties.LaidKeepsLambda | src/seedbanktree/operators/UniformizationRetypeOperator.java:502-523 | on a branch of non-zero length recalculateLambda gives back the lambda the path was built from |
| ConstrainedProperties.LaidInOrder | src/seedbanktree/operators/UniformizationRetypeOperator.java:509-522 | the written change times lie in order between the node's and its parent's heights |
| ConstrainedProperties.LaidPathProb | src/seedbanktree/operators/UniformizationRetypeOperator.java:502-529 | the returned log probability is getBranchTypeProb of the rebuilt tree |
| ConstrainedProperties.ScaledBack | src/seedbanktree/operators/UniformizationRetypeOperator.java:459 | dividing L·lambda by a non-zero L gives lambda back |
| ConstrainedProperties.LastReachesTop | src/seedbanktree/operators/UniformizationRetypeOperator.java:509-522 | the last stretch ends exactly at the parent's height |
| ConstrainedProperties.ConstrainedKeepsDormantPeriods | src/seedbanktree/operators/UniformizationRetypeOperator.java:349-530 | a rebuilt branch has as many dormant periods as the forward-backward types, alternating binary types ending active |
| ConstrainedProperties.ConstrainedKeepsLambda | src/seedbanktree/operators/UniformizationRetypeOperator.java:349-530 | on a branch of non-zero length the rebuilt tree's recalculated dormant fraction is the lambda the move started from |
| ConstrainedProperties.ConstrainedInOrder | src/seedbanktree/operators/UniformizationRetypeOperator.java:349-530 | on a time-ordered branch with lambda in [0, 1] the rebuilt change times lie in order along the branch |
| ConstrainedProperties.ConstrainedPathProb | src/seedbanktree/operators/UniformizationRetypeOperator.java:349-530 | the returned log probability is getBranchTypeProb of the rebuilt tree |
| ConstrainedRetype.CutOut | src/seedbanktree/operators/UniformizationRetypeOperator.java:434-498 | the counting loop aborts when the sampled types hold no dormant period and otherwise gives the lengths Split cuts, as CutFrom specifies |
| WilsonBalding.Max | src/seedbanktree/operators/SeedbankTreeWilsonBalding.java:51 | Math.max returns one of its arguments and is at least both |
| WilsonBalding.Abs | src/seedbanktree/operators/SeedbankTreeWilsonBalding.java:85 | Math.abs is non-negative and is the value or its negation |
| WilsonBalding.PickSrc | src/seedbanktree/operators/SeedbankTreeWilsonBalding.java:18-23 | the src selection loop stops on a non-root node, or runs out of draws |
| WilsonBalding.PickSrcFirst | src/seedbanktree/operators/SeedbankTreeWilsonBalding.java:18-23 | the chosen src is the first acceptable draw, and selection fails exactly when no draw is acceptable |
| WilsonBalding.PickDest | src/seedbanktree/operators/SeedbankTreeWilsonBalding.java:26-34 | the dest selection loop stops on a node other than src whose parent is strictly above src, or runs out of draws |
| WilsonBalding.PickDestFirst | src/seedbanktree/operators/SeedbankTreeWilsonBalding.java:26-34 | the chosen dest is the first acceptable draw, and selection fails exactly when no draw is acceptable |
| WilsonBalding.SelectSrc | src/seedbanktree/operators/SeedbankTreeWilsonBalding.java:18-23 | the do-while loop over the tree returns PickSrc |
| WilsonBalding.SelectDest | src/seedbanktree/operators/SeedbankTreeWilsonBalding.java:26-34 | the do-while loop over the tree returns PickDest |
| WilsonBalding.IsDest | src/seedbanktree/operators/SeedbankTreeWilsonBalding.java:31-34 | the loop's stop condition is DestOk |
| WilsonBalding.CollectRange | src/seedbanktree/operators/SeedbankTreeWilsonBalding.java:50-74 | the range loop over a branch returns BranchRange of the node, its minimum age and its parent's height |
| WilsonBalding.MapNewAge | src/seedbanktree/operators/SeedbankTreeWilsonBalding.java:88-106 | the loop that walks the drawn age along the active stretches returns MapAge, including the negative-infinity rejection on a boundary hit |
| WilsonBalding.MapAgeAbove | src/seedbanktree/operators/SeedbankTreeWilsonBalding.java:88-106 | a mapped age is never below the minimum age |
| WilsonBalding.MapAgeOnActive | src/seedbanktree/operators/SeedbankTreeWilsonBalding.java:88-106 | a draw below the active range maps to an age on an active stretch of the dest branch |
| WilsonBalding.OnActiveWithin | src/seedbanktree/operators/SeedbankTreeWilsonBalding.java:88-106 | an age on an active stretch lies between max(dest height, minimum age) and the parent's height |
| WilsonBalding.ActiveRangeNonNegative | src/seedbanktree/operators/SeedbankTreeWilsonBalding.java:50-61 | on a time-ordered branch the active range is non-negative |
| WilsonBalding.Planned | src/seedbanktree/operators/SeedbankTreeWilsonBalding.java:36-106 | planning stops only with the negative-infinity rejection or a missing parent |
| WilsonBalding.Ranged | src/seedbanktree/operators/SeedbankTreeWilsonBalding.java:50-106 | once the nodes are accepted, planning stops only with the negative-infinity rejection |
| WilsonBalding.Moved | src/seedbanktree/operators/SeedbankTreeWilsonBalding.java:111-118 | the moved tree keeps the arena shape and size, and the parameters exist and fit exactly when they did before |
| WilsonBalding.Carried | src/seedbanktree/operators/SeedbankTreeWilsonBalding.java:36-118 | carrying out a plan keeps the arena shape and size |
| WilsonBalding.Propose | src/seedbanktree/operators/SeedbankTreeWilsonBalding.java:11-119 | proposal() returns what Proposal specifies and leaves the tree and parameters it specifies |
| WilsonBalding.Carry | src/seedbanktree/operators/SeedbankTreeWilsonBalding.java:36-118 | the proposal after selection returns and leaves what Carried specifies |
| WilsonBalding.Move | src/seedbanktree/operators/SeedbankTreeWilsonBalding.java:111-118 | disconnecting and connecting the branch returns log(HR) and leaves what Moved specifies |
| WilsonBalding.Choose | src/seedbanktree/operators/SeedbankTreeWilsonBalding.java:36-106 | the read-only checks and range computation return Planned |
| WilsonBalding.RangeAndMap | src/seedbanktree/operators/SeedbankTreeWilsonBalding.java:50-106 | the two range loops and the age mapping return Ranged |
| WilsonBalding.RangedIs | src/seedbanktree/operators/SeedbankTreeWilsonBalding.java:76-106 | the plan is rejected exactly when either range is zero or the drawn age hits a boundary, and otherwise moves to the mapped age with log(newRange / abs(oldRange)) |
| WilsonBalding.DrawnWithin | src/seedbanktree/operators/SeedbankTreeWilsonBalding.java:86 | a draw in [0, 1) times a positive range lies in [0, range) |
| WilsonBalding.ProposalTooSmall | src/seedbanktree/operators/SeedbankTreeWilsonBalding.java:14-16 | a tree with fewer than three leaves throws IllegalStateException and nothing changes |
| WilsonBalding.GoIsNotRejection | src/seedbanktree/operators/SeedbankTreeWilsonBalding.java:36-106 | a plan that goes ahead never carries the negative-infinity rejection |
| WilsonBalding.RejectionChangesNothing | src/seedbanktree/operators/SeedbankTreeWilsonBalding.java:11-119 | every negative-infinity rejection leaves the tree and the parameters unchanged |
| WilsonBalding.PlannedGo | src/seedbanktree/operators/SeedbankTreeWilsonBalding.java:36-106 | on a time tree a plan that goes ahead has a non-root parent, positive old and new ranges, log HR = log(newRange / oldRange), and a new age on an active stretch of the dest branch between the minimum age and dest's parent |
| WilsonBalding.MovedLinks | src/seedbanktree/operators/SeedbankTreeWilsonBalding.java:108-118 | the move makes srcP the parent of src and dest, the child of destP, and gives sibling srcP's old parent; srcP is placed at the new age |
| WilsonBalding.MovedChanges | src/seedbanktree/operators/SeedbankTreeWilsonBalding.java:108-118 | the sibling's changes become its own followed by srcP's, and dest's old changes are split between dest and srcP |
| WilsonBalding.ConnectedAfterDisconnect | src/seedbanktree/operators/SeedbankTreeWilsonBalding.java:115-116 | connecting after disconnecting links srcP between dest and destP at the new age and leaves the sibling's changes alone |
| WilsonBalding.CarriedAccepted | src/seedbanktree/operators/SeedbankTreeWilsonBalding.java:36-118 | an accepted move leaves src and dest under srcP, srcP under destP at an age on an active stretch of the dest branch, and returns log(newRange / oldRange) for positive ranges |
| WilsonBalding.AcceptedMove | src/seedbanktree/operators/SeedbankTreeWilsonBalding.java:11-119 | an accepted proposal had at least three leaves and successful selections, and is the move carried out on them |
| TypedWilsonBaldings.SisterOf | src/seedbanktree/operators/SeedbankTreeOperator.java:50-56 | getOtherChild of a non-root node's parent is one of that parent's children, or a NullPointerException |
| TypedWilsonBaldings.SisterOfBinary | src/seedbanktree/operators/SeedbankTreeOperator.java:50-56 | under a binary parent getOtherChild is the sister node |
| TypedWilsonBaldings.InvalidSrc | src/seedbanktree/operators/TypedWilsonBalding.java:238-259 | the root is an invalid src; a node whose parent is not the root is valid; otherwise the answer depends on the sister |
| TypedWilsonBaldings.ValidSourceInTimeTree | src/seedbanktree/operators/TypedWilsonBalding.java:238-259 | on a time tree invalidSrcNode never throws, and a node is valid exactly when it is not the root and either its parent is not the root or its sister is an internal node strictly above it |
| TypedWilsonBaldings.PickSource | src/seedbanktree/operators/TypedWilsonBalding.java:33-37 | the src loop returns the first pick (modulo the node count) that is a valid src, and fails for lack of picks exactly when none is |
| TypedWilsonBaldings.ValidSourceHasDest | src/seedbanktree/operators/TypedWilsonBalding.java:45-48 | for a valid src some dest passes invalidDestNode, so the dest loop can end |
| TypedWilsonBaldings.Selected | src/seedbanktree/operators/TypedWilsonBalding.java:33-48 | a successful selection gives a valid non-root src, its sister as getOtherChild returns it, and a dest that invalidDestNode accepts |
| TypedWilsonBaldings.WholeRangeIsActiveRange | src/seedbanktree/operators/TypedWilsonBalding.java:166-176 | on a time-ordered branch whose start is above the minimum age, the range loop over srcP's branch equals the active range with that minimum age |
| TypedWilsonBaldings.Planned | src/seedbanktree/operators/TypedWilsonBalding.java:52-211 | planning stops only with the negative-infinity rejection, and a plan that goes ahead has non-root dest and srcP and starts from getBranchTypeProb(src) |
| TypedWilsonBaldings.RootMoveRefused | src/seedbanktree/operators/TypedWilsonBalding.java:52-54 | a dest at the root or a srcP at the root is rejected with negative infinity before anything changes |
| TypedWilsonBaldings.WholeRangeNonNegative | src/seedbanktree/operators/TypedWilsonBalding.java:166-176 | on a time-ordered branch the range over srcP's branch is non-negative |
| TypedWilsonBaldings.PlannedGo | src/seedbanktree/operators/TypedWilsonBalding.java:126-211 | on a time tree a plan that goes ahead has positive ranges, ratio log(newRange) − log(oldRange), and a new age on an active stretch of the dest branch between the minimum age and dest's parent |
| TypedWilsonBaldings.Ratioed | src/seedbanktree/operators/TypedWilsonBalding.java:225 | adding the range ratio keeps the tree, the parameters, and whether the move failed |
| TypedWilsonBaldings.Carried | src/seedbanktree/operators/TypedWilsonBalding.java:218-229 | carrying out the move keeps the arena shape and size and parameters that fit it |
| TypedWilsonBaldings.AfterMove | src/seedbanktree/operators/TypedWilsonBalding.java:222-229 | retyping after the move keeps the arena shape and size and parameters that fit it |
| TypedWilsonBaldings.AfterMoveRatio | src/seedbanktree/operators/TypedWilsonBalding.java:222-229 | retyping changes only the src node, and a finite result is the old branch probability minus getBranchTypeProb of the new path plus the ratio |
| TypedWilsonBaldings.CarriedRatio | src/seedbanktree/operators/TypedWilsonBalding.java:123-229 | a finite Hastings ratio is getBranchTypeProb(src) before the move minus getBranchTypeProb(src) after it plus the range ratio |
| TypedWilsonBaldings.CarriedLinks | src/seedbanktree/operators/TypedWilsonBalding.java:218-219 | a carried-out move places srcP at the new age between dest and destP and gives the sister srcP's old parent |
| TypedWilsonBaldings.Decided | src/seedbanktree/operators/TypedWilsonBalding.java:52-229 | deciding after selection keeps the arena shape and size and parameters that fit it |
| TypedWilsonBaldings.Proposal | src/seedbanktree/operators/TypedWilsonBalding.java:23-230 | the proposal keeps the arena shape and size |
| TypedWilsonBaldings.AcceptedMove | src/seedbanktree/operators/TypedWilsonBalding.java:23-230 | a finite result had at least three leaves, a successful selection, non-root dest and srcP and a plan that went ahead, and is the move carried out from them |
| TypedWilsonBaldings.RootBranchTypeProb | src/seedbanktree/operators/TypedWilsonBalding.java:322-337 | getRootBranchTypeProb of the root throws NullPointerException |
| TypedWilsonBaldings.RootBranchTypeProbSplits | src/seedbanktree/operators/TypedWilsonBalding.java:322-337 | under a binary parent the root-branch probability is log(1/2) plus the branch probabilities of src and its sister |
| TypedWilsonBaldings.DrawSource | src/seedbanktree/operators/TypedWilsonBalding.java:33-37 | the src selection loop returns PickSource |
| TypedWilsonBaldings.SelectOn | src/seedbanktree/operators/TypedWilsonBalding.java:33-48 | the two selection loops return Selected |
| TypedWilsonBaldings.CollectWholeRange | src/seedbanktree/operators/TypedWilsonBalding.java:166-176 | the loop over srcP's changes returns WholeRange |
| TypedWilsonBaldings.Ranges | src/seedbanktree/operators/TypedWilsonBalding.java:139-176 | the range loops return the new range on the dest branch and the old range on the sister and srcP branches |
| TypedWilsonBaldings.PlanAt | src/seedbanktree/operators/TypedWilsonBalding.java:52-211 | the read-only part of the proposal returns Planned |
| TypedWilsonBaldings.PlannedIs | src/seedbanktree/operators/TypedWilsonBalding.java:180-211 | the plan is rejected exactly when a range is zero or the drawn age hits a boundary, and otherwise goes to the mapped age with log(newRange) − log(oldRange) |
| TypedWilsonBaldings.MoveAndRetype | src/seedbanktree/operators/TypedWilsonBalding.java:218-229 | disconnecting, connecting and retyping returns and leaves what Carried specifies |
| TypedWilsonBaldings.RetypeAfter | src/seedbanktree/operators/TypedWilsonBalding.java:222-229 | retyping src returns and leaves what AfterMove specifies |
| TypedWilsonBaldings.Propose | src/seedbanktree/operators/TypedWilsonBalding.java:23-230 | proposal() returns and leaves what Proposal specifies |
| TypedWilsonBaldings.Decide | src/seedbanktree/operators/TypedWilsonBalding.java:52-229 | the proposal after selection returns and leaves what Decided specifies |
| PairMoves.SubEdgesBefore | src/seedbanktree/operators/SeedbankTreePairBirthDeath.java:23-32 | the number of sub-edges on the branches before node k is never negative |
| PairMoves.SubEdgesCount | src/seedbanktree/operators/SeedbankTreePairBirthDeath.java:23-32 | the sub-edges before node k are the changes on its non-root predecessors plus one per non-root predecessor |
| PairMoves.SubEdgesGrow | src/seedbanktree/operators/SeedbankTreePairBirthDeath.java:23-32 | the sub-edge count grows with the node index |
| PairMoves.Located | src/seedbanktree/operators/SeedbankTreePairBirthDeath.java:22-32 | a located sub-edge is on a non-root node at or after the start, at a local number no larger than that node's change count |
| PairMoves.LocatedNumbering | src/seedbanktree/operators/SeedbankTreePairBirthDeath.java:22-32 | the walk finds a node exactly when the sub-edge number is below the sub-edges still ahead; the found node's preceding sub-edges plus the local number give back the global number; a miss keeps the remainder |
| PairMoves.SubEdgeDraw | src/seedbanktree/operators/SeedbankTreePairBirthDeath.java:19 | the drawn sub-edge number is below 2n − 2 + m, and nextInt fails (IllegalArgumentException) exactly when that bound is not positive |
| PairMoves.DrawnSubEdgeIsFound | src/seedbanktree/operators/SeedbankTreePairBirthDeath.java:19-32 | on a tree with 2n − 2 non-root nodes every drawn sub-edge is found by the walk |
| PairMoves.Locate | src/seedbanktree/operators/SeedbankTreePairBirthDeath.java:22-32 | the walk over the node array returns Located from the first node |
| PairMoves.Ordered | src/seedbanktree/operators/SeedbankTreePairBirthDeath.java:76-77 | Math.min and Math.max give the two values in order |
| PairMoves.DrawnBetween | src/seedbanktree/operators/SeedbankTreePairBirthDeath.java:74-75 | a draw in [0, 1] gives a time between ts and tr |
| PairMoves.BornNode | src/seedbanktree/operators/SeedbankTreePairBirthDeath.java:79-80 | a birth adds exactly two changes to the node and keeps its change lists consistent |
| PairMoves.DiedNode | src/seedbanktree/operators/SeedbankTreePairBirthDeath.java:127-128 | a death removes exactly two changes and keeps the change lists consistent |
| PairMoves.Born | src/seedbanktree/operators/SeedbankTreePairBirthDeath.java:74-80 | a birth on a tree changes only node k, which becomes BornNode at the drawn times |
| PairMoves.Died | src/seedbanktree/operators/SeedbankTreePairBirthDeath.java:127-128 | a death on a tree changes only node k, which becomes DiedNode |
| PairMoves.RatiosCancel | src/seedbanktree/operators/SeedbankTreePairBirthDeath.java:84-85 | the death Hastings ratio with m + 2 changes is the negation of the birth ratio with m changes |
| PairMoves.Birth | src/seedbanktree/operators/SeedbankTreePairBirth.java:49-88 | a birth that is not rejected had found a sub-edge |
| PairMoves.PairBirthDeathProposal | src/seedbanktree/operators/SeedbankTreePairBirthDeath.java:12-39 | proposal() returns and leaves what BirthOrDeath specifies, choosing birth when the draw is below 0.5 |
| PairMoves.PairBirthProposal | src/seedbanktree/operators/SeedbankTreePairBirth.java:15-38 | proposal() returns and leaves what PairBirth specifies |
| PairMoves.PairDeathProposal | src/seedbanktree/operators/SeedbankTreePairDeath.java:12-35 | proposal() returns and leaves what PairDeath specifies |
| PairMoves.Draw | src/seedbanktree/operators/SeedbankTreePairBirthDeath.java:16-32 | drawing the sub-edge fails as nextInt does or returns the located sub-edge |
| PairMoves.BirthOn | src/seedbanktree/operators/SeedbankTreePairBirth.java:49-88 | birthProposal returns and leaves what Birth specifies |
| PairMoves.InsertPair | src/seedbanktree/operators/SeedbankTreePairBirthDeath.java:79-80 | the two insertChange calls put the old type at tauMax and then the new type at tauMin at the same index |
| PairMoves.RemovePair | src/seedbanktree/operators/SeedbankTreePairBirthDeath.java:127-128 | the two removeChange calls at the same index leave what Died specifies |
| PairMoves.SubEdgeAt | src/seedbanktree/operators/SeedbankTreePairBirthDeath.java:54-72 | the sub-edge's type, start and end are the type before it, the previous change time (or the node height) and the next change time (or the parent's height) |
| PairMoves.BirthIs | src/seedbanktree/operators/SeedbankTreePairBirth.java:49-88 | when not refused, a birth returns log((m + 2n − 2)(tr − ts)²) − log(2(m + 2n)) and inserts the new-type change at tauMin followed by the old-type change at tauMax |
| PairMoves.DeathOn | src/seedbanktree/operators/SeedbankTreePairBirthDeath.java:97-132 | deathProposal returns and leaves what Death specifies |
| PairMoves.BirthAndDeathCounts | src/seedbanktree/operators/SeedbankTreePairBirthDeath.java:79-128 | a birth adds two changes to the tree's total and a death removes two |
| PairMoves.BornKeepsFinalType | src/seedbanktree/operators/SeedbankTreePairBirthDeath.java:79-80 | a birth keeps the type the branch ends in |
| PairMoves.BornKeepsAlternation | src/seedbanktree/operators/SeedbankTreePairBirthDeath.java:72-80 | a birth keeps each change different from the type before it |
| PairMoves.BornKeepsOrder | src/seedbanktree/operators/SeedbankTreePairBirthDeath.java:74-80 | with draws in [0, 1] a birth keeps the branch's change times in order between the node and its parent |
| PairMoves.DiedKeepsOrder | src/seedbanktree/operators/SeedbankTreePairBirthDeath.java:127-128 | a death keeps the change times in order |
| PairMoves.DiedKeepsTypes | src/seedbanktree/operators/SeedbankTreePairBirthDeath.java:127-128 | on a binary alternating branch a death keeps the alternation and the type the branch ends in |
| PairMoves.DeathUndoesBirth | src/seedbanktree/operators/SeedbankTreePairBirthDeath.java:79-128 | removing the two changes a birth inserted gives back the node |
| PairMoves.DeathReversesBirth | src/seedbanktree/operators/SeedbankTreePairBirthDeath.java:50-132 | a death on the sub-edge a birth created restores the tree and returns the negated Hastings ratio |
| PairMoves.BranchEditKeepsValidity | src/seedbanktree/evolution/tree/SeedbankTree.java:396-406 | replacing a branch's changes by ordered changes that end in the same type keeps the tree's order and type checks |
| PairMoves.BirthKeepsValidity | src/seedbanktree/operators/SeedbankTreePairBirthDeath.java:50-86 | a birth keeps the tree's branch order, type matching and parent links |
| PairMoves.DeathKeepsValidity | src/seedbanktree/operators/SeedbankTreePairBirthDeath.java:97-132 | a death on a binary alternating branch keeps the tree's branch order, type matching and parent links |
| UniformNodes.Picked | src/seedbanktree/operators/UniformNode.java:33-45 | the change walk never lands on a node height, and picks an existing change on a non-root node at or after the start, or nothing |
| UniformNodes.PrefixChangesGrow | src/seedbanktree/operators/UniformNode.java:35-44 | the number of changes before node k grows with k |
| UniformNodes.PickedNumbering | src/seedbanktree/operators/UniformNode.java:33-45 | the walk finds a change exactly when the number is below the changes still ahead, and the changes before the found node plus its index give back the number |
| UniformNodes.EventDraw | src/seedbanktree/operators/UniformNode.java:24 | the drawn event is below internal nodes + changes, and nextInt fails exactly when that bound is not positive |
| UniformNodes.Selected | src/seedbanktree/operators/UniformNode.java:24-48 | a selection that goes ahead names an existing node height or change |
| UniformNodes.SelectionNeverFallsThrough | src/seedbanktree/operators/UniformNode.java:47-48 | the "selection loop fell through" exception is never thrown, and a change picked has the drawn number minus the internal-node count as its global change index |
| UniformNodes.Walk | src/seedbanktree/operators/UniformNode.java:35-44 | the loop over the node array returns Picked |
| UniformNodes.Select | src/seedbanktree/operators/UniformNode.java:24-48 | the selection code returns Selected |
| UniformNodes.Moved | src/seedbanktree/operators/UniformNode.java:50-96 | moving an event keeps the arena shape and size, and a failure leaves the tree alone |
| UniformNodes.Proposal | src/seedbanktree/operators/UniformNode.java:22-98 | proposal() returns and leaves what UniformMove specifies |
| UniformNodes.MoveEvent | src/seedbanktree/operators/UniformNode.java:50-96 | the three move branches return and leave what Moved specifies |
| UniformNodes.BetweenWithin | src/seedbanktree/operators/UniformNode.java:73-74 | u·tmin + (1 − u)·tmax with u in [0, 1] lies between tmin and tmax |
| UniformNodes.FactorPositive | src/seedbanktree/operators/UniformNode.java:56-58 | the root scale factor u·s + (1 − u)/s is positive for s > 0 |
| UniformNodes.StretchInverts | src/seedbanktree/operators/UniformNode.java:60 | stretching the root's distance to tmin by f and then by 1/f gives the height back |
| UniformNodes.HeightMoveKeepsOrder | src/seedbanktree/operators/UniformNode.java:62-76 | a new height at or below the ceiling and at or above every child's last change keeps all branches ordered |
| UniformNodes.ChangeMoveKeepsOrder | src/seedbanktree/operators/UniformNode.java:80-94 | a change time within its window keeps all branches ordered |
| UniformNodes.MoveKeepsLinksAndTypes | src/seedbanktree/operators/UniformNode.java:50-96 | a move changes neither the links, the node types nor the change types and counts |
| UniformNodes.MoveKeepsEventCount | src/seedbanktree/operators/UniformNode.java:24 | a move keeps the number of events, so the reverse move draws from the same range |
| UniformNodes.RootMoveKeepsOrder | src/seedbanktree/operators/UniformNode.java:51-63 | scaling the root towards the later of its children's last changes keeps all branches ordered |
| UniformNodes.InnerMoveKeepsOrder | src/seedbanktree/operators/UniformNode.java:65-77 | repositioning a non-root internal node between its children's last changes and its first change keeps all branches ordered |
| UniformNodes.RetimeKeepsOrder | src/seedbanktree/operators/UniformNode.java:80-95 | moving a change uniformly between its neighbours keeps all branches ordered |
| UniformNodes.MoveKeepsValidity | src/seedbanktree/operators/UniformNode.java:50-96 | every move keeps the links, branch order and type matching of a valid tree |
| UniformNodes.UniformMoveKeepsValidity | src/seedbanktree/operators/UniformNode.java:22-98 | the whole proposal keeps the links, branch order and type matching of a valid tree |
| UniformNodes.ChangeMoveKeepsWindow | src/seedbanktree/operators/UniformNode.java:80-94 | moving a change keeps its window, so the reverse move has the same range (Hastings ratio 0) |
| UniformNodes.HeightMoveKeepsWindow | src/seedbanktree/operators/UniformNode.java:65-77 | repositioning an inner node keeps its floor and ceiling, so the reverse move has the same range |
| UniformNodes.RootMoveInverts | src/seedbanktree/operators/UniformNode.java:53-63 | scaling the root by f and then by 1/f restores the tree, matching the −log f Hastings ratio |
| TreeScale.ScaledInTwoLoops | src/seedbanktree/operators/SeedbankTreeScale.java:45-65 | the leaf loop followed by the internal-node loop scales every node: internal heights and all change times |
| TreeScale.RepeatedFinite | src/seedbanktree/operators/SeedbankTreeScale.java:43-63 | adding a finite log f n times to a finite start adds n·log f |
| TreeScale.Checked | src/seedbanktree/operators/SeedbankTreeScale.java:67-77 | the leaf check rejects only with negative infinity, or with a NullPointerException for a parentless leaf |
| TreeScale.ScaledShaped | src/seedbanktree/operators/SeedbankTreeScale.java:45-65 | scaling keeps the arena shape and scales node by node |
| TreeScale.Proposal | src/seedbanktree/operators/SeedbankTreeScale.java:36-80 | proposal() returns and leaves what Scaling specifies |
| TreeScale.ScaleAll | src/seedbanktree/operators/SeedbankTreeScale.java:45-65 | the two loops leave the scaled tree and a ratio of −2 log f plus log f per scaled value |
| TreeScale.SameScaledCount | src/seedbanktree/operators/SeedbankTreeScale.java:45-65 | scaling the leaves first does not change how many values the second loop scales |
| TreeScale.ScaleLoop | src/seedbanktree/operators/SeedbankTreeScale.java:46-65 | one loop over the nodes scales the ones it selects and adds log f per scaled value |
| TreeScale.ScaleStep | src/seedbanktree/operators/SeedbankTreeScale.java:46-65 | one step of the loop keeps the loop invariant |
| TreeScale.ScaleNodeAt | src/seedbanktree/operators/SeedbankTreeScale.java:55-64 | scaling one node multiplies its height (internal nodes only) and change times by f and adds log f for each |
| TreeScale.ScaleChanges | src/seedbanktree/operators/SeedbankTreeScale.java:47-51 | the change-time loop multiplies every change time by f and adds log f for each |
| TreeScale.Check | src/seedbanktree/operators/SeedbankTreeScale.java:67-77 | the leaf-check loop returns Checked |
| TreeScale.LogRatioFinite | src/seedbanktree/operators/SeedbankTreeScale.java:42-64 | with a finite log f the ratio is (values scaled − 2)·log f |
| TreeScale.ScalingRatio | src/seedbanktree/operators/SeedbankTreeScale.java:36-80 | an accepted scaling returns (number of scaled values − 2)·log f for f drawn from [1/s, s] |
| TreeScale.CheckedNone | src/seedbanktree/operators/SeedbankTreeScale.java:67-77 | when the check passes, every leaf lies at or below its parent and at or below its first change |
| TreeScale.TimesAscending | src/seedbanktree/operators/SeedbankTreeScale.java:47-63 | multiplying by a positive f keeps change times in order |
| TreeScale.InnerBranchScaled | src/seedbanktree/operators/SeedbankTreeScale.java:55-64 | scaling an internal node and its parent by the same positive f keeps its branch ordered |
| TreeScale.LeafBranchScaled | src/seedbanktree/operators/SeedbankTreeScale.java:46-52 | a leaf whose unscaled height stays below its scaled first change and parent keeps its branch ordered |
| TreeScale.ScalingKeepsValidity | src/seedbanktree/operators/SeedbankTreeScale.java:36-80 | scaling keeps the links and type matching, and an accepted scaling keeps every branch ordered |
| TreeScale.ScaledBranch | src/seedbanktree/operators/SeedbankTreeScale.java:67-77 | after growing, or shrinking that passed the check, every branch is ordered |
| TreeScale.ScalingInverts | src/seedbanktree/operators/SeedbankTreeScale.java:45-65 | scaling by f and then by 1/f restores the tree |
| DormantScale.StretchesGrow | src/seedbanktree/operators/SeedbankTreeDormantScale.java:37-49 | the number of dormant stretches before node k grows with k |
| DormantScale.Landed | src/seedbanktree/operators/SeedbankTreeDormantScale.java:36-49 | the walk lands on a non-root node at or after the start and on one of its dormant stretches |
| DormantScale.LandedNumbering | src/seedbanktree/operators/SeedbankTreeDormantScale.java:36-49 | the walk lands exactly when the number is below the dormant stretches still ahead, and the stretches before the node plus the local number give it back |
| DormantScale.DeclaredIsWalked | src/seedbanktree/operators/SeedbankTreeDormantScale.java:16-49 | when internal nodes are active, leaves binary and the root has no changes, the leaf and internal counts of lines 16-29 equal the stretches the walk counts |
| DormantScale.DrawAlwaysLands | src/seedbanktree/operators/SeedbankTreeDormantScale.java:31-49 | on such a tree, with at least one dormant stretch, every draw lands on a stretch, so selectedNode is never null |
| DormantScale.Window | src/seedbanktree/operators/SeedbankTreeDormantScale.java:51-76 | a stretch from a dormant sample has a first change; any other stretch has both of its changes |
| DormantScale.DormantScaling | src/seedbanktree/operators/SeedbankTreeDormantScale.java:12-96 | the proposal returns negative infinity or 0, fails only with a NullPointerException, and a failure or rejection leaves the tree unchanged |
| DormantScale.WindowIsChangeWindow | src/seedbanktree/operators/SeedbankTreeDormantScale.java:51-76 | the interval redrawn in is the union of the windows of the stretch's changes, and each change is the other's bound |
| DormantScale.WindowOrdered | src/seedbanktree/operators/SeedbankTreeDormantScale.java:51-76 | on an ordered branch the interval is ordered and contains the stretch's changes |
| DormantScale.RedrawKeepsValidity | src/seedbanktree/operators/SeedbankTreeDormantScale.java:51-93 | redrawing a stretch changes only times and keeps the links, branch order and type matching |
| DormantScale.RedrawnTimesOnly | src/seedbanktree/operators/SeedbankTreeDormantScale.java:64-91 | only the selected node's change times change |
| DormantScale.FirstKeepsOrder | src/seedbanktree/operators/SeedbankTreeDormantScale.java:52-64 | moving the first change of a dormant sample's branch keeps every branch ordered |
| DormantScale.PairKeepsOrder | src/seedbanktree/operators/SeedbankTreeDormantScale.java:66-91 | redrawing both ends of an inner stretch keeps every branch ordered |
| DormantScale.RedrawIsSymmetric | src/seedbanktree/operators/SeedbankTreeDormantScale.java:12-96 | an accepted redraw keeps the stretch numbering, the count d, the stretch's interval and strictly ordered ends, so the reverse move has the same probability (log Hastings ratio 0) |
| DormantScale.DormantScalingKeepsValidity | src/seedbanktree/operators/SeedbankTreeDormantScale.java:12-96 | the whole proposal changes only times and keeps the links, branch order and type matching of a valid tree |
| DormantScale.Proposal | src/seedbanktree/operators/SeedbankTreeDormantScale.java:12-96 | proposal() returns and leaves what DormantScaling specifies |
| DormantScale.Count | src/seedbanktree/operators/SeedbankTreeDormantScale.java:16-29 | the counting loops return the declared number of dormant stretches |
| DormantScale.Walk | src/seedbanktree/operators/SeedbankTreeDormantScale.java:36-49 | the walk over the node array returns the node and local number Landed gives |
| DormantScale.Redraw | src/seedbanktree/operators/SeedbankTreeDormantScale.java:51-93 | redrawing returns and leaves what Redrawn specifies |
| DormantScale.RedrawFirst | src/seedbanktree/operators/SeedbankTreeDormantScale.java:52-64 | the dormant-sample branch of the redraw leaves what Redrawn specifies |
| DormantScale.RedrawPair | src/seedbanktree/operators/SeedbankTreeDormantScale.java:66-91 | the two-ended branch of the redraw leaves what Redrawn specifies |
| DormancyMovers.ActiveSlots | src/seedbanktree/operators/DormancyMover.java:49-58 | every collected location is an index whose indicator is 1 |
| DormancyMovers.ActiveSlotsExact | src/seedbanktree/operators/DormancyMover.java:49-58 | the locations are exactly the indices whose indicator is 1, in increasing order |
| DormancyMovers.Chosen | src/seedbanktree/operators/DormancyMover.java:60-65 | a chosen index has indicator 1; none is chosen when no indicator is 1 |
| DormancyMovers.ChosenCoversIndicated | src/seedbanktree/operators/DormancyMover.java:60-62 | every index whose indicator is 1 can be chosen by some draw |
| DormancyMovers.Restretched | src/seedbanktree/operators/DormancyMover.java:75-79 | replacing the branch by one dormant stretch keeps the arena shape and size |
| DormancyMovers.Moved | src/seedbanktree/operators/DormancyMover.java:38-82 | the proposal returns negative infinity or 0, and anything but 0 leaves the tree unchanged |
| DormancyMovers.StretchHasLambda | src/seedbanktree/operators/DormancyMover.java:75-79 | on a branch of positive length the new dormant stretch has length L·l, so the branch's dormant fraction becomes l |
| DormancyMovers.Laid | src/seedbanktree/operators/DormancyMover.java:74-79 | the rewritten branch keeps the arena shape and size |
| DormancyMovers.MoveKeepsValidity | src/seedbanktree/operators/DormancyMover.java:38-82 | with lambdas in [0, 1] and indicators only on active nodes, the move keeps the links, branch order and type matching |
| DormancyMovers.LaidKeepsValidity | src/seedbanktree/operators/DormancyMover.java:74-79 | rewriting an active node's branch keeps the links, branch order and type matching |
| DormancyMovers.LaidKeepsLinks | src/seedbanktree/operators/DormancyMover.java:74-79 | only the selected node's changes are rewritten: links, heights and node types stay |
| DormancyMovers.LaidBranch | src/seedbanktree/operators/DormancyMover.java:75-79 | the two new changes (to 0, then to 1) are ordered on the branch and end it active |
| DormancyMovers.StretchOrdered | src/seedbanktree/operators/DormancyMover.java:77-79 | the dormant stretch starts at or above the node and ends at or below the parent |
| DormancyMovers.Proposal | src/seedbanktree/operators/DormancyMover.java:38-82 | proposal() returns and leaves what Moved specifies |
| DormancyMovers.Move | src/seedbanktree/operators/DormancyMover.java:74-81 | clearing and adding the two changes leaves what Laid specifies and returns 0 |
| DormancyMovers.Choose | src/seedbanktree/operators/DormancyMover.java:60-65 | the draw returns Chosen |
| DormancyMovers.Locations | src/seedbanktree/operators/DormancyMover.java:49-58 | the location array holds exactly ActiveSlots before locIndex |
| DormancyMovers.LayStretch | src/seedbanktree/operators/DormancyMover.java:75-79 | clearing the changes and adding the two changes leaves what Restretched specifies |
| DormancyMovers.CheckedChoiceHasLambda | src/seedbanktree/operators/DormancyMover.java:23-65 | once initialisation has checked the dimensions, every index the move can choose has a lambda |
| DormantBitFlips.EtaSum | src/seedbanktree/operators/DormantBitFlip.java:23-26 | the sum of non-negative etas is non-negative |
| DormantBitFlips.OnCount | src/seedbanktree/operators/DormantBitFlipOld.java:19-22 | the number of indicators equal to 1 is at most the dimension |
| DormantBitFlips.On | src/seedbanktree/operators/DormantBitFlip.java:34-38 | turning on sets the eta to 1 and the lambda to the drawn l, keeping both dimensions |
| DormantBitFlips.Off | src/seedbanktree/operators/DormantBitFlip.java:77-78 | turning off sets the eta to 0 and the lambda to 0, keeping both dimensions |
| DormantBitFlips.Retyped | src/seedbanktree/operators/DormantBitFlip.java:56-65 | after the retype the tree keeps its shape and fitting parameters; the move fails exactly when the retype fails, and the tree changes only when a path was sampled |
| DormantBitFlips.TurnedOff | src/seedbanktree/operators/DormantBitFlip.java:69-80 | turning off a dormant node is rejected with no change; otherwise it throws only when getBranchTypeProb meets the root, and else clears the branch, sets eta and lambda to 0 and returns −log(sum / (dim − sum + 1)) |
| DormantBitFlips.Flipped | src/seedbanktree/operators/DormantBitFlip.java:16-83 | the proposal keeps the arena shape and fitting parameters, and throws IllegalArgumentException (nextInt(0)) exactly on an empty dimension |
| DormantBitFlips.FlippedOld | src/seedbanktree/operators/DormantBitFlipOld.java:12-55 | the old proposal keeps the arena shape and fitting parameters, and throws exactly on an empty dimension |
| DormantBitFlips.EtaSumUpdate | src/seedbanktree/operators/DormantBitFlip.java:23-34 | setting one eta changes the sum by the difference |
| DormantBitFlips.OnesAreSummed | src/seedbanktree/operators/DormantBitFlip.java:23-26 | with binary etas, summing the values equals counting the ones, so the two proposals compute the same sum |
| DormantBitFlips.OffUndoesOn | src/seedbanktree/operators/DormantBitFlip.java:35-80 | the turn-on ratio with sum s and the turn-off ratio with sum s + 1 are −log x and −log(1/x) for the same x = (dim − s)/(s + 1) |
| DormantBitFlips.RetypedIsLocal | src/seedbanktree/operators/DormantBitFlip.java:56-65 | the retype changes only the selected node's branch and parameters, and no node type or link |
| DormantBitFlips.TurnedOffIsLocal | src/seedbanktree/operators/DormantBitFlip.java:69-80 | turning off changes only the selected node's branch and parameters, and no node type or link |
| DormantBitFlips.FlipTouchesOneBranch | src/seedbanktree/operators/DormantBitFlip.java:16-83 | the proposal changes only the branch and parameters at the drawn position |
| DormantBitFlips.FlipOldTouchesOneBranch | src/seedbanktree/operators/DormantBitFlipOld.java:12-55 | the old proposal changes only the branch and parameters at the drawn position |
| DormantBitFlips.RetypedThenOff | src/seedbanktree/operators/DormantBitFlip.java:32-80 | turning off right after turning on a change-free active branch restores the tree and the parameters |
| DormantBitFlips.RetypedEtaBinary | src/seedbanktree/operators/DormantBitFlip.java:34-65 | after turning on, the eta at the position is 0 or 1 and the other etas are unchanged |
| DormantBitFlips.FlipOnThenOff | src/seedbanktree/operators/DormantBitFlip.java:16-83 | a turn-on of a change-free active branch followed by the same draw turning it off restores the tree and parameters and returns the turn-off ratio for sum + 1 |
| DormantBitFlips.FlipOldOnThenOff | src/seedbanktree/operators/DormantBitFlipOld.java:12-55 | the same reversal for the old proposal, which uses constrainedRetypeBranch |
| DormantBitFlips.OnCountUpdate | src/seedbanktree/operators/DormantBitFlipOld.java:19-29 | turning one indicator on adds one to the count |
| DormantBitFlips.OffIsRecalculated | src/seedbanktree/operators/DormantBitFlip.java:77-79 | after turning off, recalculateLambda on the cleared branch gives the same eta and lambda (0), so the parameters stay consistent with the tree |
| DormantBitFlips.OldOnKeepsDrawnLambda | src/seedbanktree/operators/DormantBitFlipOld.java:29-40 | on a branch of non-zero length the old proposal keeps the drawn lambda after retyping, because constrainedRetypeBranch rebuilds the branch with dormant fraction l |
| DormantBitFlips.SumEtas | src/seedbanktree/operators/DormantBitFlip.java:23-26 | the summing loop returns EtaSum |
| DormantBitFlips.CountOnes | src/seedbanktree/operators/DormantBitFlipOld.java:19-22 | the counting loop returns OnCount |
| DormantBitFlips.Proposal | src/seedbanktree/operators/DormantBitFlip.java:16-83 | proposal() returns and leaves what Flipped specifies |
| DormantBitFlips.ProposalOld | src/seedbanktree/operators/DormantBitFlipOld.java:12-55 | proposal() of the old operator returns and leaves what FlippedOld specifies |
| DormantBitFlips.RetypedFromOutcome | src/seedbanktree/operators/DormantBitFlip.java:56-65 | the method's outcome of a retype agrees with Retyped |
| DormantBitFlips.SwitchOn | src/seedbanktree/operators/DormantBitFlip.java:32-66 | turning on and retyping returns and leaves what Retyped specifies |
| DormantBitFlips.SwitchOnOld | src/seedbanktree/operators/DormantBitFlipOld.java:28-41 | turning on and the constrained retype return and leave what Retyped specifies |
| DormantBitFlips.RetypeFrom | src/seedbanktree/operators/DormantBitFlip.java:56-65 | the retype step returns and leaves what Retyped specifies |
| DormantBitFlips.ConstrainedRetypeFrom | src/seedbanktree/operators/DormantBitFlipOld.java:37-40 | the constrained retype step returns and leaves what Retyped specifies |
| DormantBitFlips.SetBoth | src/seedbanktree/operators/DormantBitFlip.java:77-78 | the two setValue calls change exactly the lambda and eta at the position |
| DormantBitFlips.SwitchOff | src/seedbanktree/operators/DormantBitFlip.java:67-81 | turning off returns and leaves what TurnedOff specifies |
| DormantBitFlips.ClearBranch | src/seedbanktree/operators/DormantBitFlip.java:77-79 | clearing sets eta and lambda to 0 and removes the branch's changes |
| LambdaScalers.Rescaled | src/seedbanktree/operators/LambdaScaler.java:29-72 | the proposal keeps the arena shape and fitting parameters; with no indicator set, or when the chosen node is the root, it is rejected with nothing changed |
| LambdaScalers.RetypedRatio | src/seedbanktree/operators/LambdaScaler.java:61-66 | an accepted retype returns the old log probability minus getBranchTypeProb of the rebuilt tree |
| LambdaScalers.RescaledRatio | src/seedbanktree/operators/LambdaScaler.java:29-72 | an accepted proposal chose a node whose indicator is 1 and returns getBranchTypeProb before minus getBranchTypeProb after |
| LambdaScalers.RescaledIsLocal | src/seedbanktree/operators/LambdaScaler.java:29-72 | only the chosen branch and its parameters change |
| LambdaScalers.RescaledFromRetype | src/seedbanktree/operators/LambdaScaler.java:61-71 | once a node is chosen, the proposal is the caught outcome of retyping it with the old branch probability as start |
| LambdaScalers.Proposal | src/seedbanktree/operators/LambdaScaler.java:29-72 | proposal() returns and leaves what Rescaled specifies |
| LambdaScalers.ScalerRange | src/seedbanktree/operators/LambdaScalerOld.java:49-51 | for a scale factor in (0, 1) and a draw in [0, 1) the scaler lies in [s, 1/s) and is positive |
| LambdaScalers.Coerced | src/seedbanktree/operators/LambdaScalerOld.java:157-159 | max(min(value, upper), lower) lies within [lower, upper], keeps a value already inside, and clamps to the nearer bound otherwise |
| LambdaScalers.Screened | src/seedbanktree/operators/LambdaScalerOld.java:68-106 | a node passes the checks exactly when one with indicator 1 is chosen, its lambda is non-zero and the scaled lambda is within bounds |
| LambdaScalers.Screen | src/seedbanktree/operators/LambdaScalerOld.java:68-106 | the selection and the two checks return Screened |
| LambdaScalers.ScaledLambda | src/seedbanktree/operators/LambdaScalerOld.java:59-136 | the proposal keeps the arena shape and fitting parameters, and with no choice, a zero lambda or an out-of-bounds scaled lambda it is rejected with nothing changed |
| LambdaScalers.ScaledFromChecks | src/seedbanktree/operators/LambdaScalerOld.java:108-114 | after the checks, the proposal writes the scaled lambda and is the caught outcome of the constrained retype with it |
| LambdaScalers.ScaledLambdaKept | src/seedbanktree/operators/LambdaScalerOld.java:92-114 | on a branch of non-zero length, an accepted scaling leaves the scaled lambda in place, since the constrained retype rebuilds the branch with it, and changes only the chosen eta |
| LambdaScalers.ScaledLambdaRatio | src/seedbanktree/operators/LambdaScalerOld.java:108-114 | an accepted scaling returns −getBranchTypeProb of the rebuilt branch |
| LambdaScalers.SuggestionRatio | src/seedbanktree/operators/LambdaScalerOld.java:166-168 | the ratio is clamped to [0.5, 2], and kept when already inside |
| LambdaScalers.LambdaScalerOld.constructor | src/seedbanktree/operators/LambdaScalerOld.java:27-34 | the scale factor and its bounds are taken from the inputs |
| LambdaScalers.LambdaScalerOld.SetCoercableParameterValue | src/seedbanktree/operators/LambdaScalerOld.java:157-159 | the new scale factor is the value clamped to [lower, upper] |
| LambdaScalers.LambdaScalerOld.GetScaler | src/seedbanktree/operators/LambdaScalerOld.java:49-51 | the scaler is s + u(1/s − s), within [s, 1/s) for s in (0, 1) |
| LambdaScalers.LambdaScalerOld.Suggestion | src/seedbanktree/operators/LambdaScalerOld.java:162-179 | a suggestion is made exactly when the acceptance rate is below 0.10 or above 0.40, and is s to a power within [0.5, 2] |
| LambdaScalers.LambdaScalerOld.Proposal | src/seedbanktree/operators/LambdaScalerOld.java:59-136 | proposal() returns and leaves what ScaledLambda specifies with the drawn scaler |
| LambdaScalers.LambdaScalerOld.ScaleChosen | src/seedbanktree/operators/LambdaScalerOld.java:69-135 | after the scaler is drawn, choosing the index, checking and scaling it, and retyping leave the tree, parameters and result ScaledLambda specifies |
| LambdaScalers.LambdaScalerOld.ScaleAndRetype | src/seedbanktree/operators/LambdaScalerOld.java:108-135 | writing the new lambda and retyping the branch under the catch-all leave the result, tree and parameters Retyped specifies with that lambda |
| RecolorBranches.FirstNonRoot | src/seedbanktree/operators/RecolorBranch.java:36-38 | the selected node is the first drawn node that is not the root, and there is none exactly when every draw names the root |
| RecolorBranches.SelectNonRoot | src/seedbanktree/operators/RecolorBranch.java:36-38 | the do-while loop over the draws returns FirstNonRoot |
| RecolorBranches.Recolored | src/seedbanktree/operators/RecolorBranch.java:34-50 | the proposal keeps the arena shape and parameters, and fails only when the draws run out before a non-root node is drawn |
| RecolorBranches.RecoloredRatio | src/seedbanktree/operators/RecolorBranch.java:41-49 | an accepted recolouring returns getBranchTypeProb before minus getBranchTypeProb after, on the chosen branch |
| RecolorBranches.RecoloredAbortIsNotRejected | src/seedbanktree/operators/RecolorBranch.java:41-49 | a retype that gives up leaves the tree as it was, yet the proposal returns the old log probability minus negative infinity, which is positive infinity, not a rejection |
| RecolorBranches.RecoloredIsLocal | src/seedbanktree/operators/RecolorBranch.java:34-50 | only the chosen branch changes |
| RecolorBranches.Proposal | src/seedbanktree/operators/RecolorBranch.java:34-50 | proposal() returns and leaves what Recolored specifies |
| RecolorBranches.Retried | src/seedbanktree/operators/RecolorBranch.java:93-104 | the retry loop keeps the arena shape and the parameters |
| RecolorBranches.RetryRound | src/seedbanktree/operators/RecolorBranch.java:94-101 | one retype round either ends the loop, on a rejected retype, the 10000000th try or a branch with changes, or leaves the rest of the loop to do; only the chosen branch changes |
| RecolorBranches.Retry | src/seedbanktree/operators/RecolorBranch.java:93-104 | the loop returns what Retried specifies; an accepted result leaves a branch with at least one change and equals the old log probability minus getBranchTypeProb of the new branch; no other branch changes |
| RecolorBranches.Recolored2 | src/seedbanktree/operators/RecolorBranch.java:57-112 | proposal2 keeps the arena shape and the parameters, and with no eta equal to 1 it returns negative infinity with nothing changed |
| RecolorBranches.Proposal2 | src/seedbanktree/operators/RecolorBranch.java:57-112 | proposal2() returns what Recolored2 specifies; an accepted result picked a node whose eta is 1, leaves that branch with at least one change, returns getBranchTypeProb before minus after, and changes no other branch |
| RecolorBranches.RetypeThenRetry | src/seedbanktree/operators/RecolorBranch.java:92-106 | the first retype and the retry loop on the tree: the new state is what FirstThenRetried specifies, an accepted result leaves the branch with a change and is the old path probability minus the new one, and no other branch changes |
| NodeShiftRetypes.Slot | src/seedbanktree/operators/NodeShiftRetype.java:36-37 | a draw names an internal node: an index from getLeafNodeCount() up to the node count |
| NodeShiftRetypes.Drawn | src/seedbanktree/operators/NodeShiftRetype.java:35-38 | the drawn node is internal and, under noRoot, not the root; the draw fails on a tree with no internal node, or when every draw is redrawn; the first draw is kept unless it must be redrawn |
| NodeShiftRetypes.Target | src/seedbanktree/operators/NodeShiftRetype.java:31-38 | rootOnly selects the root; otherwise the selected node is internal and, under noRoot, not the root |
| NodeShiftRetypes.SelectNode | src/seedbanktree/operators/NodeShiftRetype.java:31-38 | the selection returns Target |
| NodeShiftRetypes.Children | src/seedbanktree/operators/NodeShiftRetype.java:58-66 | the children, when both exist, are nodes of the arena |
| NodeShiftRetypes.Recalculated | src/seedbanktree/operators/NodeShiftRetype.java:73-74 | recalculateLambda on the two children changes neither the result nor the tree |
| NodeShiftRetypes.RootPlan | src/seedbanktree/operators/NodeShiftRetype.java:55-68 | a root plan names the root's two children; a missing child is a NullPointerException |
| NodeShiftRetypes.RootShifted | src/seedbanktree/operators/NodeShiftRetype.java:53-77 | rootProposal keeps the arena shape and the parameters |
| NodeShiftRetypes.NonRootPlan | src/seedbanktree/operators/NodeShiftRetype.java:86-98 | a non-root plan names the node's two children; a missing child is a NullPointerException |
| NodeShiftRetypes.NonRootShifted | src/seedbanktree/operators/NodeShiftRetype.java:84-105 | nonRootProposal keeps the arena shape and the parameters |
| NodeShiftRetypes.NonRootShiftedRatio | src/seedbanktree/operators/NodeShiftRetype.java:86-104 | a finite result is the sum of the three branch probabilities before minus the same sum after |
| NodeShiftRetypes.RootShiftedRatio | src/seedbanktree/operators/NodeShiftRetype.java:55-76 | a finite result is the two child-branch probabilities before, minus log f, minus the same sum after |
| NodeShiftRetypes.NonRootShiftedIsLocal | src/seedbanktree/operators/NodeShiftRetype.java:84-105 | either nothing changes or the node takes the drawn height and only the node and its two children change |
| NodeShiftRetypes.RootShiftedIsLocal | src/seedbanktree/operators/NodeShiftRetype.java:53-77 | either nothing changes or the root takes the scaled height and only its two children change beyond that |
| NodeShiftRetypes.ShiftHeightWithin | src/seedbanktree/operators/NodeShiftRetype.java:94-98 | for u in [0, 1] the new height lies between the older child and the parent |
| NodeShiftRetypes.RootStaysAbove | src/seedbanktree/operators/NodeShiftRetype.java:62-67 | for a positive scale factor and u in [0, 1], f is positive and the new root height stays above the older child |
| NodeShiftRetypes.Shifted | src/seedbanktree/operators/NodeShiftRetype.java:29-46 | proposal() keeps the arena shape and the parameters |
| NodeShiftRetypes.PlanRoot | src/seedbanktree/operators/NodeShiftRetype.java:55-68 | the read-only part of rootProposal returns RootPlan |
| NodeShiftRetypes.PlanNonRoot | src/seedbanktree/operators/NodeShiftRetype.java:86-98 | the read-only part of nonRootProposal returns NonRootPlan |
| NodeShiftRetypes.MoveAndRetypeThree | src/seedbanktree/operators/NodeShiftRetype.java:98-104 | the new height is written and the three branches retyped, as Retyped3 then Finish specify |
| NodeShiftRetypes.MoveAndRetypeTwo | src/seedbanktree/operators/NodeShiftRetype.java:67-76 | the new root height is written, the two child branches retyped and recalculated, as Retyped2, Finish and Recalculated specify |
| NodeShiftRetypes.NonRootProposal | src/seedbanktree/operators/NodeShiftRetype.java:84-105 | nonRootProposal returns and leaves what NonRootShifted specifies |
| NodeShiftRetypes.RootProposal | src/seedbanktree/operators/NodeShiftRetype.java:53-77 | rootProposal returns and leaves what RootShifted specifies |
| NodeShiftRetypes.Proposal | src/seedbanktree/operators/NodeShiftRetype.java:29-46 | proposal() returns and leaves what Shifted specifies |
| NodeShiftRetypes.CheckedFlagsAreHonoured | src/seedbanktree/operators/NodeShiftRetype.java:20-38 | initialisation passes exactly when every selected node honours the flags: the root under rootOnly and a non-root node under noRoot |
| SubtreeExchanges.NarrowPair | src/seedbanktree/operators/TypedSubtreeExchange.java:25-30 | the narrow source is the first drawn node that is neither the root nor a child of the root, and the destination is its parent's sibling; the draws run out only when no drawn node qualifies |
| SubtreeExchanges.WidePair | src/seedbanktree/operators/TypedSubtreeExchange.java:35-44 | the wide source is a non-root node, the destination is neither the source, the root nor a sibling of the source; the draws run out when no drawn node can be the source |
| SubtreeExchanges.WideSourceDraw | src/seedbanktree/operators/TypedSubtreeExchange.java:35-37 | the do-while draws a node that is not the root |
| SubtreeExchanges.WideDestDraw | src/seedbanktree/operators/TypedSubtreeExchange.java:39-43 | the do-while draws a node that is not the source, not the root and not under the source's parent |
| SubtreeExchanges.Selected | src/seedbanktree/operators/TypedSubtreeExchange.java:22-45 | the selected source and destination are arena nodes and the source is not the root |
| SubtreeExchanges.Swapped | src/seedbanktree/operators/TypedSubtreeExchange.java:56-57 | the two replace calls keep the arena shaped |
| SubtreeExchanges.Rejected | src/seedbanktree/operators/TypedSubtreeExchange.java:47-50 | the move is rejected exactly when the destination is at least as old as the source's parent or the source at least as old as the destination's parent; a root destination is a NullPointerException |
| SubtreeExchanges.Prepared | src/seedbanktree/operators/TypedSubtreeExchange.java:47-53 | the old log probability is recorded exactly when the move is not rejected |
| SubtreeExchanges.Exchanged | src/seedbanktree/operators/TypedSubtreeExchange.java:47-65 | the exchange keeps the arena shape and the parameters, and a rejected move returns negative infinity with nothing changed |
| SubtreeExchanges.Exchange | src/seedbanktree/operators/TypedSubtreeExchange.java:16-66 | proposal() keeps the arena shape and the parameters |
| SubtreeExchanges.SwappedShape | src/seedbanktree/operators/TypedSubtreeExchange.java:56-57 | after the swap each node hangs under the other's old parent, each parent lost one child and gained the other, and nothing else moves; after the height check both new branches have positive length |
| SubtreeExchanges.ExchangedRatio | src/seedbanktree/operators/TypedSubtreeExchange.java:52-65 | a finite result is the two branch probabilities before minus the same two after |
| SubtreeExchanges.ExchangedIsLocal | src/seedbanktree/operators/TypedSubtreeExchange.java:47-65 | either nothing changes, or the move passed the check and, beyond the swap, only the two exchanged branches change |
| SubtreeExchanges.SelectNarrow | src/seedbanktree/operators/TypedSubtreeExchange.java:25-30 | the narrow selection loop returns NarrowPair |
| SubtreeExchanges.SelectWide | src/seedbanktree/operators/TypedSubtreeExchange.java:35-44 | the wide selection loops return WidePair |
| SubtreeExchanges.WideOn | src/seedbanktree/operators/TypedSubtreeExchange.java:35-44 | the two wide draws return WidePair |
| SubtreeExchanges.DrawSource | src/seedbanktree/operators/TypedSubtreeExchange.java:35-37 | the loop returns WideSourceDraw |
| SubtreeExchanges.DrawDest | src/seedbanktree/operators/TypedSubtreeExchange.java:39-43 | the loop returns WideDestDraw |
| SubtreeExchanges.CheckHeights | src/seedbanktree/operators/TypedSubtreeExchange.java:47-50 | the height check returns Rejected |
| SubtreeExchanges.SwapAt | src/seedbanktree/operators/TypedSubtreeExchange.java:56-57 | the two replace calls leave the arena Swapped |
| SubtreeExchanges.SwapAndRetype | src/seedbanktree/operators/TypedSubtreeExchange.java:55-65 | the swap followed by the two retypes leaves what Retyped2 and Finish specify |
| SubtreeExchanges.SelectPair | src/seedbanktree/operators/TypedSubtreeExchange.java:22-45 | the selection returns Selected |
| SubtreeExchanges.PrepareAt | src/seedbanktree/operators/TypedSubtreeExchange.java:47-53 | the check and the old probabilities return Prepared |
| SubtreeExchanges.ExchangeAt | src/seedbanktree/operators/TypedSubtreeExchange.java:47-65 | the exchange returns and leaves what Exchanged specifies |
| SubtreeExchanges.Proposal | src/seedbanktree/operators/TypedSubtreeExchange.java:16-66 | proposal() returns and leaves what Exchange specifies |
| NodeDraws.FirstAccepted | src/seedbanktree/operators/RecolorBranch.java:36-38 | a do-while over draws returns the first draw (mod the node count) the test accepts, with its position; it fails exactly when no draw is accepted |
| NodeDraws.DrawUntil | src/seedbanktree/operators/RecolorBranch.java:36-38 | the loop returns FirstAccepted |
| RetypeMoves.RetypedMove | src/seedbanktree/operators/UniformizationRetypeOperator.java:108-287 | retypeBranch on a tree with parameters keeps the arena shape and the parameters; it fails with NullPointerException exactly on the root and then changes nothing |
| RetypeMoves.RetypedMoveProb | src/seedbanktree/operators/UniformizationRetypeOperator.java:295-336 | whenever the branch changed, and whenever the result is not negative infinity, the result is getBranchTypeProb of the new branch |
| RetypeMoves.RetypedMoveIsLocal | src/seedbanktree/operators/UniformizationRetypeOperator.java:108-287 | only the retyped branch's changes and its lambda and eta change; its height, parent, children and type stay |
| RetypeMoves.RetypeOnce | src/seedbanktree/operators/UniformizationRetypeOperator.java:108-287 | retypeBranch returns and leaves what RetypedMove specifies |
| RetypeMoves.ProbKept | src/seedbanktree/operators/UniformizationRetypeOperator.java:295-336 | getBranchTypeProb of a node depends only on that node when the arena shape is kept |
| RetypeMoves.ThenRetype | src/seedbanktree/operators/TypedSubtreeExchange.java:60 | adding a retype to a running sum keeps the arena shape and the parameters |
| RetypeMoves.ThenRetypeFinite | src/seedbanktree/operators/TypedSubtreeExchange.java:60 | a finite running sum after a retype is the earlier sum plus getBranchTypeProb of the retyped branch, and only that branch changes |
| RetypeMoves.GetPba | src/seedbanktree/operators/UniformizationRetypeOperator.java:295-336 | the ancestor-type probability read from the tree is PbaAt |
| RetypeMoves.GetProb | src/seedbanktree/operators/UniformizationRetypeOperator.java:295-336 | getBranchTypeProb read from the tree is Prob |
| RetypeMoves.RetypeAdding | src/seedbanktree/operators/TypedSubtreeExchange.java:60 | one retype added to a running sum leaves what ThenRetype specifies |
| RetypeMoves.Retyped2 | src/seedbanktree/operators/TypedSubtreeExchange.java:60 | retyping two branches keeps the arena shape and the parameters |
| RetypeMoves.Retyped3 | src/seedbanktree/operators/NodeShiftRetype.java:100-102 | retyping three branches keeps the arena shape and the parameters |
| RetypeMoves.Finish | src/seedbanktree/operators/TypedSubtreeExchange.java:60 | subtracting the retype sum from the recorded log probability changes neither the tree nor the parameters |
| RetypeMoves.SubFinite | src/seedbanktree/operators/TypedSubtreeExchange.java:60 | a finite difference of two doubles has two finite operands |
| RetypeMoves.Retyped2Sum | src/seedbanktree/operators/TypedSubtreeExchange.java:60 | a finite sum of two retypes is the sum of the two new branch probabilities |
| RetypeMoves.Retyped3Sum | src/seedbanktree/operators/NodeShiftRetype.java:100-102 | a finite sum of three retypes is the sum of the three new branch probabilities |
| RetypeMoves.ChainIsLocal | src/seedbanktree/operators/TypedSubtreeExchange.java:60 | retyping two branches changes only those two |
| RetypeMoves.LongerChainIsLocal | src/seedbanktree/operators/NodeShiftRetype.java:100-102 | retyping three branches changes only those three |
| RetypeMoves.AddZero | src/seedbanktree/operators/NodeShiftRetype.java:55-58 | 0.0 plus a double is that double |
| RetypeMoves.RetypeTwo | src/seedbanktree/operators/TypedSubtreeExchange.java:60 | the two retypes return and leave what Retyped2 specifies |
| RetypeMoves.RetypeThree | src/seedbanktree/operators/NodeShiftRetype.java:100-102 | the three retypes return and leave what Retyped3 specifies |
| RetypeMoves.ProbOfTwo | src/seedbanktree/operators/TypedSubtreeExchange.java:53 | the two branch probabilities read from the tree are Before2 |
| RetypeMoves.ProbOfThree | src/seedbanktree/operators/NodeShiftRetype.java:89-91 | the three branch probabilities read from the tree are Before3 |
| ClockModels.UnitWeightIsScalingOne | src/seedbanktree/evolution/branchratemodel/SeedbankClockModel.java:90-93 | SeedbankClockModel's rate formula is SeedbankClockModelOld's with a dormant scaling of 1 |
| ClockModels.UnitRate | src/seedbanktree/evolution/branchratemodel/SeedbankClockModel.java:88-93 | since the dormant and active parts add up to the branch length, a unit-weighted rate is exactly 1 on a branch of non-zero length and NaN on one of length 0 |
| ClockModels.ScaledRateBounds | src/seedbanktree/evolution/branchratemodel/SeedbankClockModelOld.java:81-86 | for a scaling in [0, 1] the rate of a branch of positive length lies in [scaling, 1]; a branch of length 0 gives NaN |
| ClockModels.BranchRateProperties | src/seedbanktree/evolution/branchratemodel/SeedbankClockModelOld.java:41-87 | on an ordered branch of type 0 or 1, a scaling of 1 gives rate 1 (NaN at length 0), and a scaling in [0, 1] gives a finite rate in [scaling, 1] |
| ClockModels.Preorder | src/seedbanktree/evolution/branchratemodel/SeedbankClockModelOld.java:89-92 | the recursion visits only nodes of the arena |
| ClockModels.WrittenExtends | src/seedbanktree/evolution/branchratemodel/SeedbankClockModelOld.java:89-92 | rates written for one subtree stay written while the other subtree is filled in |
| ClockModels.WriteRate | src/seedbanktree/evolution/branchratemodel/SeedbankClockModelOld.java:42-86 | the rate written for one node fails with RuntimeException exactly when its type is not 0 or 1, and otherwise is BranchRate; no other entry changes |
| ClockModels.CalculateRates | src/seedbanktree/evolution/branchratemodel/SeedbankClockModelOld.java:41-93 | calculateRates fails exactly when some visited node throws, and otherwise writes BranchRate for every node of the subtree and nothing else |
| ClockModels.ClampToUnit | src/seedbanktree/evolution/branchratemodel/SeedbankClockModelOld.java:30-35 | a RealParameter's bounds are intersected with [0, 1] and a bound already inside is kept; other functions are untouched |
| ClockModels.SeedbankClockModelOld.constructor | src/seedbanktree/evolution/branchratemodel/SeedbankClockModelOld.java:27-39 | initAndValidate clamps the scaling bounds to [0, 1] and allocates one rate per node |
| ClockModels.SeedbankClockModelOld.GetRateForBranch | src/seedbanktree/evolution/branchratemodel/SeedbankClockModelOld.java:96-104 | a pending recomputation runs calculateRates from the root and succeeds exactly when no node throws; the rate returned is then BranchRate of the branch; without one the cached rate is returned unchanged |
| ClockModels.SeedbankClockModelOld.RequiresRecalculation | src/seedbanktree/evolution/branchratemodel/SeedbankClockModelOld.java:107-111 | the cache is marked for recomputation and true is returned |
| ClockModels.SeedbankClockModelOld.Store | src/seedbanktree/evolution/branchratemodel/SeedbankClockModelOld.java:114-117 | the cache is marked for recomputation |
| ClockModels.SeedbankClockModelOld.Restore | src/seedbanktree/evolution/branchratemodel/SeedbankClockModelOld.java:120-123 | the cache is marked for recomputation |
| ClockModels.SeedbankClockModel.constructor | src/seedbanktree/evolution/branchratemodel/SeedbankClockModel.java:31-46 | initAndValidate clamps both rate bounds below at 0 and never allocates the rate array |
| ClockModels.SeedbankClockModel.Allocating | src/seedbanktree/evolution/branchratemodel/SeedbankClockModel.java:31-46 | the intended initAndValidate, which also allocates one rate per node |
| ClockModels.SeedbankClockModel.GetRateForBranch | src/seedbanktree/evolution/branchratemodel/SeedbankClockModel.java:103-112 | with no rate array it throws NullPointerException; otherwise a recomputation succeeds exactly when no node throws and returns the unit-weighted rate of the branch |
| ClockModels.SeedbankClockModel.RequiresRecalculation | src/seedbanktree/evolution/branchratemodel/SeedbankClockModel.java:115-119 | the cache is marked for recomputation and true is returned |
| ClockModels.SnsRate | src/seedbanktree/evolution/branchratemodel/SeedbankClockModelSNS.java:44-60 | the root and a branch whose eta is 0 run at rate 1; a node number outside the parameters is IndexOutOfBounds |
| ClockModels.SnsRateRange | src/seedbanktree/evolution/branchratemodel/SeedbankClockModelSNS.java:55-59 | with eta 1 the rate is alpha for a fully dormant branch, 1 for lambda 0, and lies within [alpha, 1] for alpha and lambda in [0, 1] |
| ClockModels.DefaultBounds | src/seedbanktree/evolution/branchratemodel/SeedbankClockModelX.java:31-44 | a missing or negative lower bound becomes 0 and a missing or negative upper bound Double.MAX_VALUE; other bounds are kept |
| ClockModels.InitializedRatesX | src/seedbanktree/evolution/branchratemodel/SeedbankClockModelX.java:28-64 | with in-bounds rates and a non-negative mean rate, a node of type 0 or 1 gets a non-negative rate, any other type fails, and a dormant rate no larger than the active one gives the slower branch |
| BernoulliDistribution.IntervalCdf | src/seedbanktree/inference/distribution/Bernoulli.java:58-65 | an interval whose lower end exceeds its upper end is an IllegalArgumentException |
| BernoulliDistribution.InverseCdf | src/seedbanktree/inference/distribution/Bernoulli.java:83-95 | a quantile of 1 or more gives Integer.MAX_VALUE, and any smaller one gives −1 or 0 |
| BernoulliDistribution.ProbabilitiesSumToOne | src/seedbanktree/inference/distribution/Bernoulli.java:44-48 | the masses at 0 and 1 add up to 1, and every other point has mass 0 |
| BernoulliDistribution.CdfMonotone | src/seedbanktree/inference/distribution/Bernoulli.java:51-55 | for p in [0, 1] the distribution function is non-decreasing within [0, 1], is 0 below 0 and 1 from 1 on |
| BernoulliDistribution.CdfIsAccumulatedMass | src/seedbanktree/inference/distribution/Bernoulli.java:51-55 | the distribution function at x is the mass of the points in (−1, x] |
| BernoulliDistribution.IntervalCdfIsMass | src/seedbanktree/inference/distribution/Bernoulli.java:58-65 | for x0 ≤ x1 the interval probability is the mass of the points in (x0, x1], within [0, 1] for p in [0, 1] |
| BernoulliDistribution.InverseCdfBrackets | src/seedbanktree/inference/distribution/Bernoulli.java:83-95 | for p in [0, 1] and a quantile q in [0, 1) the returned k satisfies F(k) ≤ q < F(k + 1) |
| SpikeAndSlab.JavaIntCast | src/seedbanktree/inference/distribution/SpikeAndSlabPrior.java:78 | the (int) cast truncates toward zero and saturates at the 32-bit bounds |
| SpikeAndSlab.IntervalProbability | src/seedbanktree/inference/distribution/SpikeAndSlabPrior.java:117-124 | a reversed interval is an IllegalArgumentException; off the slab the interval probability is 1 exactly when the spike lies in (x0, x1] and 0 otherwise |
| SpikeAndSlab.NoPositiveInfinity | src/seedbanktree/inference/distribution/SpikeAndSlabPrior.java:81-83 | positive infinity becomes negative infinity and every other value is kept |
| SpikeAndSlab.CheckBounds | src/seedbanktree/inference/distribution/SpikeAndSlabPrior.java:48-74 | the bounds loop reports an out-of-bounds value exactly when some value of a bounded parameter lies outside its bounds |
| SpikeAndSlab.OnSpikeStep | src/seedbanktree/inference/distribution/SpikeAndSlabPrior.java:76-80 | the first n values sit on the spike exactly when the first n − 1 do and the n-th does too |
| SpikeAndSlab.AllSpikeLogP | src/seedbanktree/inference/distribution/SpikeAndSlabPrior.java:75-80 | when every gamma casts to 0, the running sum is 0 if every value sits on the spike and negative infinity otherwise |
| SpikeAndSlab.SpikeAndSlabPrior.constructor | src/seedbanktree/inference/distribution/SpikeAndSlabPrior.java:23-28 | a new prior has its spike at 0.0, the given slab and log probability 0 |
| SpikeAndSlab.SpikeAndSlabPrior.InitAndValidate | src/seedbanktree/inference/distribution/SpikeAndSlabPrior.java:31-42 | the spike is set when given and the slab always; a dimension mismatch is an IllegalArgumentException, and otherwise logP is calculateLogP's result |
| SpikeAndSlab.SpikeAndSlabPrior.CalculateLogP | src/seedbanktree/inference/distribution/SpikeAndSlabPrior.java:45-88 | the result is LogP; a gamma shorter than the values throws after logP was set to the partial sum |
| SpikeAndSlab.LogPNeverPositive | src/seedbanktree/inference/distribution/SpikeAndSlabPrior.java:45-88 | with matching dimensions the log probability is never positive infinity, and a value out of bounds gives negative infinity |
| SpikeAndSlab.LogPOfSpikes | src/seedbanktree/inference/distribution/SpikeAndSlabPrior.java:75-87 | when every gamma casts to 0 and the values are in bounds, the log probability is 0 exactly when every value sits on the spike |
| SpikeAndSlab.SpikeIsPointMass | src/seedbanktree/inference/distribution/SpikeAndSlabPrior.java:106-146 | off the slab the distribution is a point mass at the spike: the CDF steps from 0 to the spike's mass there, an interval holds that mass exactly when it contains the spike, and the log density is 0 at a mass of 1 and negative infinity at 0 |
| Loggers.AccumulateLengths | src/seedbanktree/util/TypeLengthsLogger.java:26-48 | the loop fails with IndexOutOfBounds exactly when some non-root node has a type outside 0/1, having summed the nodes before it; otherwise the two entries are the tree's dormant and active lengths |
| Loggers.TypeLengthsLogger.constructor | src/seedbanktree/util/TypeLengthsLogger.java:22-24 | initAndValidate starts both lengths at 0 |
| Loggers.TypeLengthsLogger.Update | src/seedbanktree/util/TypeLengthsLogger.java:26-48 | update() leaves the dormant and active lengths of the tree, or fails on a type outside 0/1 |
| Loggers.TypeLengthsLogger.GetArrayValue | src/seedbanktree/util/TypeLengthsLogger.java:78-87 | getArrayValue updates and returns the requested length, or throws for a dimension other than 0 or 1 |
| Loggers.LoggedLengths | src/seedbanktree/util/TypeLengthsLogger.java:26-48 | the two logged lengths add up to the tree length, and are non-negative on a tree with ordered change times |
| Loggers.ShareRange | src/seedbanktree/util/DormantPercentage.java:59 | the dormant fraction of non-negative lengths with a positive total lies in [0, 1]; a zero total gives NaN |
| Loggers.DormantPercentage.constructor | src/seedbanktree/util/DormantPercentage.java:30-34 | initAndValidate starts both lengths at 0, the percentage at 0 and reads logLengths |
| Loggers.DormantPercentage.Update | src/seedbanktree/util/DormantPercentage.java:36-60 | update() leaves the two lengths and the percentage, the dormant length over their sum; a failure leaves the percentage as it was |
| Loggers.DormantPercentage.GetArrayValue | src/seedbanktree/util/DormantPercentage.java:99-103 | getArrayValue updates and returns the percentage whatever dimension is asked |
| Loggers.PercentageIsFraction | src/seedbanktree/util/DormantPercentage.java:59 | on an ordered tree of positive length the percentage is the dormant length over the tree length, within [0, 1] |
| Loggers.CountTypes | src/seedbanktree/util/NodeTypeCountsLogger.java:26-49 | the loop fails with IndexOutOfBounds exactly when some node has a type outside 0/1; otherwise each count is TypeCount: one per node of that type plus the per-branch terms computed from the change count |
| Loggers.NodeTypeCountsLogger.constructor | src/seedbanktree/util/NodeTypeCountsLogger.java:22-24 | initAndValidate starts both counts at 0 |
| Loggers.NodeTypeCountsLogger.Update | src/seedbanktree/util/NodeTypeCountsLogger.java:26-49 | update() leaves the two counts of CountTypes, or fails on a type outside 0/1 |
| Loggers.NodeTypeCountsLogger.GetArrayValue | src/seedbanktree/util/NodeTypeCountsLogger.java:79-88 | getArrayValue updates and returns the requested count, or throws for a dimension other than 0 or 1 |
| Loggers.SegmentsClosedForm | src/seedbanktree/util/NodeTypeCountsLogger.java:39-47 | counting alternating segments along a branch with c changes gives c/2 + 1 segments of the starting type and (c+1)/2 of the other |
| Loggers.CountsAreSegments | src/seedbanktree/util/NodeTypeCountsLogger.java:31-48 | on branches that end active, the closed-form counts equal the number of typed segments in the tree |
| TypeLengths.BranchLengths | src/seedbanktree/util/TypeLengthsLogger.java:36-46 | a branch with type 0 or 1 splits into its dormant and active lengths by alternating at each change; any other type gives none |
| TypeLengths.OrderedBranchNonNegative | src/seedbanktree/util/TypeLengthsLogger.java:36-46 | on a branch with ordered change times both parts are non-negative |
| TypeLengths.TreePartition | src/seedbanktree/util/TypeLengthsLogger.java:31-47 | the dormant and active parts of the tree add up to its total branch length |
| TypeLengths.TreePartNonNegative | src/seedbanktree/util/TypeLengthsLogger.java:31-47 | on a tree with ordered change times each part is non-negative |
| GridSearching.GridSearch.constructor | src/seedbanktree/operators/GridSearch.java:28-40 | initAndValidate stores the bounds and quantity, sets the steps to (upper − lower)/(quantity − 1) and starts both cursors at the lower bounds |
| GridSearching.GridSearch.Proposal | src/seedbanktree/operators/GridSearch.java:43-59 | past the last c value the proposal returns 0 and changes nothing; otherwise it sets c and K to the cursors, advances K (wrapping to KLower), advances c when K wraps, and returns positive infinity; on a wide grid it visits the points row by row |
| GridSearching.SweepStep | src/seedbanktree/operators/GridSearch.java:44-54 | one proposal step moves the cursors from one grid point to the next in row-major order |
| GridSearching.SweepAfterClosedForm | src/seedbanktree/operators/GridSearch.java:43-59 | after r·q + j steps the sweep stands at row r and column j |
| GridSearching.SweepOrder | src/seedbanktree/operators/GridSearch.java:43-59 | after m steps the sweep stands at row m / q and column m mod q, and it has not run past the grid exactly when m < q² |
| GridSearching.Scaled | src/seedbanktree/operators/GridSearch.java:35-54 | the k-th grid point lies within the upper bound (plus tolerance) exactly when k < quantity, and successive points differ by one step |
| Loggers.TypeLengthsLogger.DimensionsServed | src/seedbanktree/util/TypeLengthsLogger.java:73-86 | the logger serves exactly the dimensions 0 to getDimension() − 1 |

## Left out

- SeedbankTrees.TimesAreValid: the recursion is bounded by a `fuel` argument, which callers set to the node count. Java recurses without a bound and overflows its stack on a cyclic tree, while the model answers after `fuel` levels. No lemma shows that this fuel reaches every node of an acyclic arena.
- SeedbankTrees.TypesAreValid: bounded by `fuel` in the same way as TimesAreValid.
- ClockModels.Preorder: bounded by `fuel` in the same way. Nodes deeper than the fuel are not visited.
- Retype.RetypeBranch: the uniformized chain (rate matrix Q, jump matrix R and its powers) is a `Chain` of total functions. The end-point probability Pba of a branch is a parameter. Neither is constrained to be a probability.
- Retype.RetypeBranch: drawEventCount (UniformizationRetypeOperator.java:53-97), the rejection sampler for the number of virtual events, is not part of this model. Its result enters as the parameter `nVirt`.
- ConstrainedRetype.ConstrainedRetypeBranch: requires the node type to be 0 or 1 and the branch's lambda to be finite. The source demands neither.
- GridSearching.GridSearch.constructor: requires `quantity >= 2`. Java divides by `quantity - 1` unchecked, so a quantity of 1 gives infinite or NaN steps.
- NodeShiftRetypes.Proposal: requires a non-zero root scale factor. With a factor of 0, Java computes f as infinity or NaN.
- TreeScale.Proposal: requires a non-zero scale factor. With a factor of 0, Java draws f from s + u(1/s - s) as infinity or NaN and carries on with it.
- TreeScale.Scaling: requires a non-zero scale factor, for the same reason as TreeScale.Proposal.
- UniformNodes.Moved: requires a non-zero scale factor. For the root, Java's factor s + u(1/s - s) is infinity or NaN when s is 0.
- UniformNodes.UniformMove: requires a non-zero scale factor, as UniformNodes.Moved does.
- UniformNodes.Proposal: requires a non-zero scale factor, as UniformNodes.Moved does.
- UniformNodes.MoveEvent: requires a non-zero scale factor, as UniformNodes.Moved does.
- LambdaScalers.LambdaScalerOld.GetScaler: requires a non-zero scale factor. With a factor of 0, Java's s + u(1/s - s) is infinity or NaN.
- LambdaScalers.LambdaScalerOld.Proposal: requires a non-zero scale factor, as GetScaler does. It also requires every lambda to be finite, as LambdaScalers.Screened does.
- LambdaScalers.Screened: requires every lambda to be finite. A RealParameter can hold infinity or NaN. Java's zero test passes such a value. A NaN product then also passes the bounds test, because every comparison with NaN is false, and is written as the new lambda. The model does not follow that path.
- LambdaScalers.Screen: requires finite lambdas, as LambdaScalers.Screened does.
- LambdaScalers.ScaledLambda: requires finite lambdas, as LambdaScalers.Screened does.
- LambdaScalers.LambdaScalerOld.ScaleChosen: requires finite lambdas, as LambdaScalers.Screened does.
- Simulation.UpdateTree: a NullEvent while dormant lineages remain fails with NoProgress. Java's simulation loop has no exit there and runs forever, so the model stops where the source hangs.
- SeedbankTreesX.UpdateTreeX: fails with NoProgress where Java loops forever, as Simulation.UpdateTree does.
- DensityX.NextEventX: scans the live nodes in the order they were added. Java scans a HashSet, whose order depends on hash codes, and keeps the first of several equally high nodes (a later one must be strictly higher). When two live nodes have the same height, the model may pick a different one than Java.
- DensityX.SeedbankTreeDensityX.UpdateEventSequence: builds the event sequence with NextEventX, so equal heights may be ordered differently than in Java.
- NodeShiftRetypes.SelectNode: the leaf count is the tree's `leafNodeCount` field, not a count of the arena's leaves. As in BEAST, leaves are assumed to be numbered first.
- NodeShiftRetypes.NonRootShiftedRatio: stated only when the node and its two children are three distinct nodes.
- SubtreeExchanges.ExchangedRatio: stated only when source and destination differ.
- SubtreeExchanges.NarrowPair: requires a non-empty tree. Java's nextInt(0) on an empty tree is not modelled.
- SurgeryProperties.DisconnectKeepsOrder: assumes no node is its own child, which every tree built by the package satisfies.
- Doubles.Add: finite doubles are reals. Rounding, overflow, signed zero and NaN payloads are not modelled. Only the infinities and NaN are kept, as distinct values.
- DormancyMovers.Moved: the lambdas are read as reals, not as doubles.
- Loggers.CountTypes: counts are unbounded integers. Java's 32-bit int wrap-around is not modelled, and neither is that of any other int counter.
- RetypeMoves.RetypeOnce: the optional lambda and eta arrays must have one entry per node, as in every operator method that takes them. A shorter parameter would make Java throw IndexOutOfBoundsException.
- RecolorBranches.Recolored: Java's selection loop runs forever on a tree whose only node is the root. The model fails with `DrawsExhausted` once the draws run out.
- RecolorBranches.Retry: likewise, a loop that needs more retypes than it is given fails with `DrawsExhausted`.
- LambdaScalers.LambdaScalerOld.Suggestion: the acceptance counts are parameters. The operator's `optimize` tuning of the scale factor is not modelled beyond `SetCoercableParameterValue`.
- LambdaScalers.Proposal: LambdaScaler reads an `indicatorsInput` that its base operator does not declare. The model reads the `etas` parameter in its place.
- Initialisers.InitializedIsGood: requires non-negative waiting-time draws (`WaitsNonNegative`), as Randomizer.nextExponential always gives.
- Initialisers.AlternatingSumIsDormant: stated for branches whose change types alternate, as those built by the simulator do.
- Density.SeedbankTreeDensity.UpdateEventSequence: Java scans a HashMap of open branches and keeps the first latest event. The model scans in insertion order, so among events at equal times it may pick a different one.
- SeedbankTreeX.simulateTree (src/seedbanktree/evolution/tree/SeedbankTreeX.java:521-616) repeats SeedbankTree.simulateTree, including the empty `migrationProp` list (:563) and the `set(1, …)` on it (:641). It is modelled once, by `SimulationAsWritten.SimulateTreeAsWritten`. Its event placement is modelled by `SeedbankTreesX.UpdateTreeXKeepsTypes`.
- SeedbankTrees.SubtreeCopy: SeedbankNode.copy and assignFrom are modelled on the arena (fresh nodes for the copied subtree). Object identity and the ID strings are not modelled.
- The `System.out`/`System.err` prints, RecolorBranch's `manualLog` and the loggers' `init`, `log` and `close` output are not part of this model. So are the BEAST `Input` plumbing, the XML parsing and the MCMC acceptance step.
- Concurrency: the `synchronized` block of the clock models is not modelled.

## Findings

| source | as written | input that shows it | evidently intended | confidence | as-written member | corrected member |
|---|---|---|---|---|---|---|
| src/seedbanktree/evolution/branchratemodel/SeedbankClockModel.java:31-46 | initAndValidate never allocates `rates`, so getRateForBranch throws NullPointerException when it writes the first rate at :52 | any tree and any call of getRateForBranch after initAndValidate | `rates = new double[tree.getNodeCount()]`, as SeedbankClockModelOld does at :38 | not executed | ClockModels.SeedbankClockModel.GetRateForBranch | ClockModels.SeedbankClockModel.Allocating |
| src/seedbanktree/evolution/tree/SeedbankTree.java:479-557 | simulateTree hands updatePropensities an empty `migrationProp` list, whose `set(1, …)` at :557 throws IndexOutOfBoundsException | any non-empty set of samples | a two-element list filled before the loop, as SeedbankTreeInitializer does | not executed | SimulationAsWritten.SimulateTreeAsWritten | Simulation.SimulateTree |
| src/seedbanktree/evolution/tree/SeedbankTree.java:480-556 | `coalesceProp` is a boxed Double that updatePropensities only rebinds locally, so the caller's stays 0 while the returned total counts the coalescence propensity. Once the list has two entries, a draw above the two migration propensities falls through getNextEvent to the RuntimeException | coalescence propensity 1, migration propensities 0 and 1, total 2, event draw 0.75 (so U = 1.5) | the coalescence propensity reaches getNextEvent, so every draw below the total selects an event | not executed | SimulationAsWritten.CoalescenceShareExample | Simulation.EventIntervals |
