# A verified model of the LLVM tutorial's transformation passes

The project models the passes of the repository that rewrite a function — RIV, DuplicateBB, MergeBB, SimpleLICM,
dead store elimination, induction variable elimination, MBAAdd and MBASub — over a small SSA intermediate
representation, and proves for each of them when a rewritten function behaves like the original one, and when it is still
well formed.

- **The IR** (`Ir.dfy`): functions, labelled basic blocks with PHIs, instructions with operand ids, `br`/`switch`/
  `indirectbr`/`ret`/`unreachable` terminators, integers of a given width.
- **Execution** (`Semantics.dfy`): one basic block a step, over an environment of values and a world made of
  byte-addressed memory and the history of calls made so far. A callee is an arbitrary function of its arguments and
  the world it is called in. Two functions have the *same behaviour* when, on every input, they end in the same
  way (result, memory, calls, or the same fault) or not at all, and emit the same calls on the way, runs that never
  end included.
- **Well-formedness** (`Ssa.dfy`): unique definitions, complete PHIs, and definitions that dominate their uses. Dominance
  is defined over paths from the entry; that no run of a well-formed function ever meets an undefined value is a theorem.
- **The passes** are methods that rewrite a function held in a class field step by step, as the code does. Each is proved
  against a closed form of its result (`CloneFn`, `Redirect`, `HoistFn`, `Erase`, `Replace`, `Rewrite`), and the theorems
  about meaning, dominance and fixed points are about those functions. What a pass rewrites and what it leaves is also stated
  on the text of the result, without the closed form (`BothBranches`, `StandIn`, `MovedRight`, `NoneLeft`, `BodyText`). What LLVM supplies — the
  dominator tree, the loop, the memory walker, alias analysis, scalar evolution, the order in which a set is iterated, the
  random pick — is a parameter, with a contract where one is needed.

| files | what they hold |
|---|---|
| `Bits`, `Ir`, `Semantics`, `Ssa`, `Graph`, `Removal`, `Rename`, `Memory` | the language, its meaning, SSA, functions with one graph, removed instructions, renaming, memories that differ on some bytes |
| `Riv` | the analysis of always-available integers |
| `Clone`, `CloneSsa`, `CloneTest`, `DuplicateBBPass` | block cloning: simulation, dominance, the inserted test, the pass |
| `Merge`, `MergeSpec`, `MergeFacts`, `MergeSim`, `MergeDelete`, `MergeSsa`, `MergeBBPass`, `MergePhiExample`, `MergeSwitchExample` | block merging: the checks, what they come to and what they imply, simulation, deletion, dominance, the pass, two counterexamples, a function of the tests |
| `ClonePair`, `CloneMerge` | merging what was cloned, over whole runs of both passes |
| `Licm`, `LicmRule`, `LicmPass`, `LicmSsa`, `LicmExact`, `SimpleLicm`, `LicmExample` | hoisting: simulation, which instructions move, the fixed point, dominance, the exact conditions, the pass, a counterexample |
| `Dse`, `DseStatic`, `DseKept`, `DseSsa`, `DsePass`, `DseExamples`, `DseLoops` | dead stores: dirty bytes, paths and aliases, SSA, the pass, counterexamples, examples with other pointers and with loops |
| `DerivedIv`, `DerivedIvSim`, `DerivedIvSsa`, `DerivedIvPass`, `DerivedIvExample` | recurrences, their replacement, SSA, the loop nest, two example loops |
| `Mba`, `MbaSsa`, `MbaText`, `MbaPass` | the two identities, SSA, the rewritten text, and the in-place block rewriting |

`dafny verify dfyconfig.toml` checks everything.

## What the code does, where that differs from what its text says

- **DSE, the check for intervening uses.** The comment at `DSE/DeadStoreElimination.cpp:13` promises to look for a store or load
  in between. The walk starts at the access whose clobbering access the candidate already is, so it stops at once and never
  objects (`WalkNeverObjects`), and it does not see loads. Must-alias says nothing about sizes, and nothing stops the pointer from
  changing between the two stores. The rule is right under three conditions it does not check
  (`DeadStoreSameBehaviour`), and each of them is shown to be needed by a function on which both analyses are right and the rule is
  wrong. Checking them once, on the function as it is before the pass, is enough (`PairsOkAllUnchecked`).
- **Alias analysis** is taken to be right on a set of inputs, such as those on which an allocator returns new addresses, and only
  where it is relied on: an answer is about one access and a location, and has to hold while the store to that location has been
  executed and the store that overwrites it has not been since. Nothing is asked of it about pointers left over from an earlier trip
  round a loop. The theorems speak about the runs on those inputs. `OtherPointerRead` is a function that meets all conditions
  although memory is read through another pointer between the two stores, and `OtherPointerMatters` an input outside the set on which
  it goes wrong. `AdvancingPointer` and `SometimesStored` are loops whose pointers move on every trip and in which the store can go
  on every input; in the second the answer is wrong at other accesses (`StaleAddress`). The counterexamples have every answer right
  everywhere.
- **Induction variables.** The replacement at `DIVdir/DerivedInductionVar.cpp:93-95` drops the start value.
  At a visit of the loop it is right if and only if the value the variable had when the loop was last entered is zero in its width
  (`VisitMultipleIff`). Scalar evolution is taken to be right on a set of inputs, such as those whose arguments, memory and replies
  fit their types, so a start may be a parameter, a loaded value or a reply; `ParameterStart` is a loop the pass gets right
  exactly on the inputs whose argument is zero. A loop without a canonical counter also stops the recursion (lines 51-54), so the
  loops inside it are left alone.
- **MergeBB and PHIs.** The edges moved at `lib/MergeBB.cpp:126-138` are not added to the PHIs of the block that is kept, and the
  comparison at lines 98-104 goes by the position of a PHI's entries, whatever blocks they stand for. A merge keeps meaning if
  whoever enters the erased block enters the retained one with the same PHI entries (`MergeSameBehaviour`). Between blocks with PHIs whose shared
  entries agree, a run survives the merge if and only if it never enters the erased block from elsewhere (`MergeIff`).
  `MergingPhisBreaks` and `CrossedPhisBreak` are functions the pass breaks: in the second every PHI stays complete.
- **MergeBB, predecessors of the other block.** The `continue` at `lib/MergeBB.cpp:191-194` only leaves its inner loop, so that
  check has no effect; the model follows the code.
- **SimpleLICM, the operand rule.** An operand defined by an instruction outside the loop counts as not invariant
  (line 48), so the fixed point is smaller than the usual one. A member that may trap stays behind while members that need it move
  (`TrapBreaks`). The function stays well formed if and only if every operand is hoisted before its user (`HoistWellFormedIff`); in
  insertion order that is so if and only if no invariant instruction that can be moved needs one that may trap
  (`InsertionOrderIff`). If it is not so, exactly the runs that come to the end of the preheader change: they get stuck there
  (`HoistRunIff`).
- **DuplicateBB, later clones.** Value-map keys follow a value when it is replaced, so a later clone refers to the earlier
  clone in its own branch, not to the merged PHI, as `test/DuplicateBB_add.ll:22-38` shows.

## Model

| member | source | states |
|---|---|---|
| Riv.BuildRiv | lib/RIV.cpp:58-115 | Every node of the dominator tree is popped exactly once. The result covers exactly the blocks reachable from the entry, and a block's set is exactly the globals and parameters of integer type together with the ids of the integer PHIs and instructions of its strict dominators, whatever the order of children. |
| Riv.PushChildren | lib/RIV.cpp:101-111 | Pushing the children of a popped node keeps the counts and leaves every node on the stack with its final set already in the result. |
| Riv.CollectDefs | lib/RIV.cpp:65-73 | The first step finds the integer values of every block, PHIs included. |
| Riv.CollectEntryValues | lib/RIV.cpp:75-85 | The entry's set holds exactly the integer globals and arguments. |
| Riv.ChildValues | lib/RIV.cpp:101-111 | What is reachable at a child of the dominator tree is what is reachable at its parent and what the parent defines, nothing else. |
| Riv.StrictDominatorsOfChild | lib/RIV.cpp:101-111 | Over paths from the entry: the strict dominators of a block are its immediate dominator and that one's strict dominators. |
| Riv.IntDefsAre | lib/RIV.cpp:65-73 | A block's values are the ids of the PHIs and instructions in it whose type is an integer; each is a definition of the block. |
| Riv.ReachableValueIs | lib/RIV.cpp:58-115 | What counts as reachable at a block, read off the parameter and global lists and, over all paths from the entry, off the blocks each of them goes through. |
| Riv.ReachableValueDefined | lib/DuplicateBB.cpp:150-151 | Whenever any run on any input reaches a block, every value of the block's set has been computed. |
| Clone.CloneSameBehaviour | lib/DuplicateBB.cpp:146-232 | Cloning a block under a test of an available value keeps results, memory, calls and faults of every run. |
| Clone.CloneKeepsUp | lib/DuplicateBB.cpp:183-228 | At every point of every run, each original value is held by its merged PHI (or by itself, if it was not cloned). |
| Clone.CloneBodySim | lib/DuplicateBB.cpp:195-207 | Either copy of the body, reading earlier copies of its own branch, computes the values and effects of the original body. |
| Clone.MergePhisRun | lib/DuplicateBB.cpp:215-227 | The tail's PHIs, executed at once, take the values of the branch the run came through, whichever it was. |
| CloneSsa.CloneWellFormed | lib/DuplicateBB.cpp:146-232 | Cloning keeps SSA: one definition per id, complete PHIs, every definition dominating its uses. The context value stays available. |
| CloneMerge.ReplacedGone | lib/DuplicateBB.cpp:215-232 | No instruction of the cloned block, replaced or purged, is defined or read anywhere in the result. |
| CloneSsa.CloneUnique | lib/DuplicateBB.cpp:195-232 | Copies, merged PHIs, the test and all other values keep distinct ids. |
| CloneSsa.ClonePhisComplete | lib/DuplicateBB.cpp:156-227 | Tail and successor PHIs have exactly one entry per predecessor. |
| CloneSsa.Collapse | lib/DuplicateBB.cpp:156-159 | Every path of the cloned function folds back to a path of the original that visits only blocks it visits, and that left the cloned block only through its tail. |
| CloneSsa.DominatesKept | lib/DuplicateBB.cpp:156-159 | Dominators of a block's original still dominate it. |
| CloneSsa.TailDominates | lib/DuplicateBB.cpp:156-159 | What the block dominated is dominated by its tail. |
| CloneSsa.CtxKept | lib/DuplicateBB.cpp:223-227 | A value available to another block stays available under its new name. |
| DuplicateBBPass.DuplicateBB.CloneBB | lib/DuplicateBB.cpp:143-235 | The loop over the tail with its three value maps ends in exactly the closed form of the clone, records the merged PHI of every value in the remapper, and keeps meaning and well-formedness. On every input, from any environment that defines the looked-up context value, the block goes on to its first copy if that value is zero and to the second if it is not; both copies repeat the whole block. |
| CloneTest.CloneTests | lib/DuplicateBB.cpp:149-156 | Whatever the environment and the world, executing the head leads to the first copy if the context value is zero there, and to the second otherwise. |
| CloneTest.BothCopies | lib/DuplicateBB.cpp:156-207 | Exactly three blocks are new; two of them repeat the block's instructions one for one, the third is left with its terminator. |
| CloneTest.TestKept | lib/DuplicateBB.cpp:223-227 | Cloning another block leaves an earlier test one of the same value, under that value's new name. |
| DuplicateBBPass.RemapGivesClone | lib/DuplicateBB.cpp:195-207 | A map whose keys follow replaced values sends an operand of a later clone to the earlier clone of the same branch, never to the merged PHI. |
| DuplicateBBPass.Finish | lib/DuplicateBB.cpp:230-232 | Purging what produces no value from the tail leaves exactly the closed form. |
| DuplicateBBPass.DuplicateBB.FindBBsToDuplicate | lib/DuplicateBB.cpp:101-141 | Each target is a block of the order, once, with a value of its set that is no global, for every choice the generator can make; a block whose set is nonempty and free of globals is a target. |
| DuplicateBBPass.DuplicateBB.Run | lib/DuplicateBB.cpp:237-256 | For every order of blocks and every pick: the targets are reachable values of the original function, the result is all of them cloned in turn under the remapper's names, and meaning and well-formedness are kept. In the result every target goes to the first of its three new blocks if its context value, under its final name, is zero, and to the second if not. |
| DuplicateBBPass.TargetsTest | lib/DuplicateBB.cpp:246-251 | At the end of the run each target still tests its own context value, under the name the remapper gives it. |
| DuplicateBBPass.PendingKept | lib/DuplicateBB.cpp:246-251 | Whatever has been cloned, the context value of each remaining target, looked up in the remapper, is available to its block. |
| DuplicateBBPass.ComposeRemapper | lib/DuplicateBB.cpp:223 | One look-up in the grown remapper is the look-up before followed by the renaming of the new clone. |
| DuplicateBBPass.OneHopKept | lib/DuplicateBB.cpp:150-151 | What a look-up in the remapper yields is itself never a key, so one hop always ends at a live PHI. |
| Merge.RedirectEdges | lib/MergeBB.cpp:118-141 | A merge moves exactly the in-edges of the erased block onto the retained one and changes no other edge. |
| MergeSpec.OnlyIndirectStops | lib/MergeBB.cpp:154-159 | Of the terminators that lead anywhere, only an indirect branch keeps the block it leads to from being merged. |
| MergeSpec.QualifiesIff | lib/MergeBB.cpp:143-245 | The checks, with their use lists, counts and scans, accept exactly the blocks that can stand in, which is said of positions in the text: where each value is read, which entry of the PHI is whose, which instructions are no debug intrinsics. |
| MergeSpec.ReadWhere | lib/MergeBB.cpp:61-90 | The uses of a value are all the entries, operands and terminators that read it. |
| MergeFacts.NoInnerUse | lib/MergeBB.cpp:61-107 | If two blocks pass every check, no instruction or PHI of either is used in its own block. |
| MergeFacts.UseIsEdge | lib/MergeBB.cpp:61-107 | A value of such a block is used only on the block's own edge into the successor's single PHI. |
| MergeFacts.OneValueLeaves | lib/MergeBB.cpp:61-107 | At most one value leaves each block: two aligned positions whose items are used are one. |
| MergeFacts.InnerUses | lib/MergeBB.cpp:163-176 | No use of a value of either block is anywhere but on the two edges of that PHI. |
| MergeFacts.EdgeValues | lib/MergeBB.cpp:209-222 | On the two edges the PHI has the same outside value, or values at the same position of the two scans. |
| MergeSim.MergeSameBehaviour | lib/MergeBB.cpp:118-141 | Redirecting a duplicate, with or without PHIs, keeps results, memory, calls and faults of every run if whoever enters it enters the retained block with the same PHI entries. |
| MergeSim.MergeIff | lib/MergeBB.cpp:98-141 | Between blocks with PHIs whose shared entries agree, a run is unchanged if and only if it never enters the erased block from one that does not enter the retained block. |
| MergeSim.UnmatchedEntrySticks | lib/MergeBB.cpp:126-138 | A run that does enter it so is stuck there once merged, for want of a PHI entry. |
| MergeSim.MergeKeepsUp | lib/MergeBB.cpp:224-241 | As long as the erased block is entered over matching edges, the two runs agree on every value but those of the two merged blocks. |
| MergeSim.StepTwin | lib/MergeBB.cpp:224-241 | Executing the retained block, PHIs included, in place of the erased one does the same to the world and the other values. |
| MergeSsa.MergedWellFormed | lib/MergeBB.cpp:118-141 | A merge with matching entries, and deletion of the erased block, keep the function in SSA form, dominance included. |
| MergeSsa.LiveOkGrows | lib/MergeBB.cpp:196-241 | Merge after merge, the blocks not yet erased stay in SSA form and read nothing of those that are. |
| MergeSsa.RedirectWellFormed | lib/MergeBB.cpp:118-141 | If the erased block has no PHIs, the function is in SSA form even before it is deleted. |
| MergeBBPass.LockstepReverseIterator.constructor | lib/MergeBB.cpp:289-304 | The scan starts at the last non-debug instruction of both blocks, whatever their lengths, or has failed when one has none. |
| MergeBBPass.LockstepReverseIterator.Decrement | lib/MergeBB.cpp:316-331 | One step moves both positions to the previous aligned pair, or fails exactly when none is left, however debug intrinsics are interleaved. |
| MergeBBPass.PrevNonDbg | lib/MergeBB.cpp:306-314 | The backward search stops at the nearest instruction that is not a debug intrinsic. |
| MergeBBPass.GetNumNonDbgInstr | lib/MergeBB.cpp:110-116 | The count covers the non-debug instructions, PHIs and terminator included. |
| MergeBBPass.AllMergeable | lib/MergeBB.cpp:224-232 | For equal counts the lockstep loop terminates and accepts if and only if every aligned pair of non-debug, non-terminator instructions is mergeable. |
| MergeBBPass.MergeBB.IsDuplicate | lib/MergeBB.cpp:179-232 | The checks on one predecessor accept exactly the blocks that qualify. |
| MergeBBPass.MergeBB.UpdateBranchTargets | lib/MergeBB.cpp:118-141 | Rewriting the predecessors' terminators one by one, in any order, is the redirection; something is updated if and only if the erased block had a predecessor. |
| MergeBBPass.MergeBB.MergeDuplicatedBlock | lib/MergeBB.cpp:143-245 | The block is merged into one that can stand in for it, and marked; or nothing changes and there is none. That a block can stand in is said of the text: no indirect branch enters the merged block, both blocks are no entry and end in one unconditional branch, instruction by instruction they do the same, and the one PHI behind them gets the same value from both, or a value computed in each. |
| MergeBBPass.MergeBB.Run | lib/MergeBB.cpp:247-261 | For every order: each block has its turn, when it is merged into one that can stand in for it, in that sense, or there is none; the result is those merges with the marked blocks deleted and the bodies of the others as they were; marked blocks have no in-edges and lead by acyclic chains to survivors with the same code. Meaning and SSA form are kept when the entries of merged blocks match, which holds if no marked block has PHIs, or if look-alikes of the input are entered alike. |
| MergeBBPass.TurnsTaken | lib/MergeBB.cpp:247-257 | At each block's turn, in the function as the merges of the blocks before it left it, the block is merged into one that can stand in, or none can. |
| MergeBBPass.ChainsGrow | lib/MergeBB.cpp:196-241 | One more merge keeps every chain of merges acyclic and ending in a surviving block with the same non-debug instructions and terminator. |
| MergeBBPass.LookAlikesKept | lib/MergeBB.cpp:196-241 | Blocks of the input that look alike and are entered alike stay so through every merge, so the condition can be checked before the pass. |
| MergeSsa.RetainedPhisComplete | lib/MergeBB.cpp:126-138 | After a merge the retained block's PHIs have one entry per predecessor if and only if it has none, or every predecessor of the erased block already was one of the retained block's. |
| MergeBBPass.MergeBB.DeleteMarked | lib/MergeBB.cpp:255-257 | Deleting the marked blocks, in any order, removes exactly them and their PHI entries and changes no run. |
| MergeDelete.DeleteSameBehaviour | lib/MergeBB.cpp:255-257 | Deleting a block without in-edges changes no run. |
| MergePhiExample.MergingPhisBreaks | lib/MergeBB.cpp:126-138 | A well-formed function that the whole pass, merges and deletion, breaks: the retained block has no PHI entry for the new predecessor. |
| MergePhiExample.CrossedPhisBreak | lib/MergeBB.cpp:98-104 | A well-formed function whose result the pass changes although every PHI stays complete: equal operands at equal positions stand for different blocks. |
| MergeSwitchExample.SwitchMerged | test/MergeBB_switch_merged.ll:3-35 | On the test's function, in the order of its text, the pass has one possible run: block 2 goes into block 4 although a switch enters both, and the result is the expected function. |
| CloneMerge.ClonesMergeIff | lib/MergeBB.cpp:28-32 | For every run of DuplicateBB and every run of MergeBB on its output, in whatever orders: one of the two clones of a target is erased if and only if the original body has at most one value-producing instruction and none of its instructions uses it. |
| CloneMerge.ClonesQualifyIff | lib/MergeBB.cpp:28-32 | On the output of DuplicateBB the checks accept a pair of clones under exactly that condition, whatever else was cloned. |
| CloneMerge.PairCloned | lib/DuplicateBB.cpp:195-227 | Cloning another block leaves two clones a pair, and their bodies rejoin as before. |
| ClonePair.TurnsPair | lib/MergeBB.cpp:247-261 | Over a whole run of MergeBB a clone is erased only if its body allows it, and two clones neither of which is erased stay a pair. |
| ClonePair.PairRedirected | lib/MergeBB.cpp:118-141 | Merging other blocks leaves a pair a pair; the tail that joins the clones' values is never erased. |
| LicmPass.FindInvariants | SimpleLICM/SimpleLICM-skeleton.cpp:32-61 | The loop terminates with the least set closed under the operand rule, listed so that each member needs only earlier ones. |
| LicmRule.EligibleIff | SimpleLICM/SimpleLICM-skeleton.cpp:38-39 | An instruction that produces a value may enter the set if and only if its answer depends on its operands alone and it leaves the world as it is. |
| LicmRule.SpeculatableIff | SimpleLICM/SimpleLICM-skeleton.cpp:64 | Such an instruction may be moved if and only if it has an answer for all values of the operands that are no literals. |
| LicmPass.ScanLoop | SimpleLICM/SimpleLICM-skeleton.cpp:36-60 | One scan either shrinks what is not yet in the set or finds the set closed. |
| LicmPass.FixedPointUnique | SimpleLICM/SimpleLICM-skeleton.cpp:35-61 | The set does not depend on the order in which blocks are visited. |
| LicmPass.InsertionOrderHoistable | SimpleLICM/SimpleLICM-skeleton.cpp:55-68 | In insertion order, every safe member comes after what it needs, if all it needs is safe too. |
| SimpleLicm.SimpleLICM.Run | SimpleLICM/SimpleLICM-skeleton.cpp:26-70 | Without a preheader nothing changes; otherwise every instruction of the loop whose answer depends on its operands alone, and which needs only such instructions, is in the set; those of the set that never fail for any operands, in the order it is iterated, leave the loop for the end of the preheader, and nothing else changes. For every order: a run keeps its behaviour if and only if each member needs only earlier ones or the run never comes to the preheader's end, and, if the preheader is reachable, the function stays well formed if and only if each does. In insertion order each does when no invariant instruction that can be moved needs one that may trap. |
| Licm.HoistSameBehaviour | SimpleLICM/SimpleLICM-skeleton.cpp:63-68 | Hoisting instructions that need only each other, in order, changes no run, loops that execute no iteration included. |
| Licm.HoistKeepsUp | SimpleLICM/SimpleLICM-skeleton.cpp:63-68 | At every point the runs agree on all other values, and a hoisted value, once computed in the original, is the one computed in the preheader. |
| Licm.HoistedValue | SimpleLICM/SimpleLICM-skeleton.cpp:64-66 | A hoisted instruction computes the same value whenever it is executed, in any world. |
| LicmSsa.HoistDominanceIff | SimpleLICM/SimpleLICM-skeleton.cpp:63-68 | In whatever order instructions are hoisted, definitions dominate uses afterwards if and only if every operand that is an instruction is hoisted before its user. |
| LicmExact.HoistWellFormedIff | SimpleLICM/SimpleLICM-skeleton.cpp:63-68 | Under the same condition, and no other, the whole function stays well formed: ids unique, PHIs complete, uses dominated. |
| LicmExact.HoistRunIff | SimpleLICM/SimpleLICM-skeleton.cpp:63-68 | A run is unchanged if and only if that condition holds or the run never comes to the end of the preheader. |
| LicmExact.MissingOperandSticks | SimpleLICM/SimpleLICM-skeleton.cpp:63-68 | If an operand is left behind or hoisted late, the first time a run comes to the preheader's end it is stuck on an undefined value. |
| LicmExact.SameUntilLeft | SimpleLICM/SimpleLICM-skeleton.cpp:26-30 | Until then both functions go through the same states, outside the loop and with nothing of it computed. |
| LicmSsa.InsertionOrderIff | SimpleLICM/SimpleLICM-skeleton.cpp:35-68 | In insertion order, the pass keeps dominance if and only if in the loop no invariant instruction that can be moved needs one that may trap. |
| LicmSsa.TrapStaysBehind | SimpleLICM/SimpleLICM-skeleton.cpp:63-68 | In any order, it keeps dominance only if that is so. |
| LicmPass.SelfContainedIff | SimpleLICM/SimpleLICM-skeleton.cpp:48-68 | Whether what is moved needs only what is moved depends on the loop's text alone, not on the order of the set. |
| LicmExample.TrapBreaks | SimpleLICM/SimpleLICM-skeleton.cpp:63-68 | A well-formed loop whose division stays behind while the addition that needs it is moved out: a use without a dominating definition, and on every input a run that changes. |
| LicmSsa.AnyOrderSelected | SimpleLICM/SimpleLICM-skeleton.cpp:43-68 | What the pass hoists, in whatever order the set is iterated, meets the assumptions of that equivalence. |
| LicmSsa.PreheaderDominates | SimpleLICM/SimpleLICM-skeleton.cpp:26-30 | The preheader dominates every block of its loop. |
| DsePass.HasInterveningUse | DSE/DeadStoreElimination.cpp:14-36 | The walk terminates on every graph, cyclic ones included; it returns true when an access or the walker is missing, and otherwise false if and only if iterating the walker from the later access reaches the earlier one. |
| DsePass.WalkNeverObjects | DSE/DeadStoreElimination.cpp:68-84 | On what the rule proposes, the walk always reaches the earlier access, so the check never objects. |
| DsePass.DeadStoreElimination.DeadBefore | DSE/DeadStoreElimination.cpp:61-86 | A store is erased on account of another exactly when the walker goes from the latter's access, a definition, to the former's, also a definition, alias analysis says must-alias of the former's location and width, and the latter post-dominates it; there is such a store or the answer is none. |
| DsePass.DeadStoreElimination.EraseInBlock | DSE/DeadStoreElimination.cpp:57-95 | Walking a block backwards while stores vanish before and after the cursor leaves no pair of the visited instructions to which the rule applies. |
| DsePass.DeadStoreElimination.Run | DSE/DeadStoreElimination.cpp:45-106 | One visit of all blocks erases exactly the logged stores, each of which met those conditions in the input function, and no two stores of the result meet them; nothing else changes; a well-formed function stays so; no run on the inputs the analyses are right about changes if each pair also met the conditions the code leaves unchecked, as it does if all pairs the rule proposes in the input function meet them there. |
| DsePass.NoneProposed | DSE/DeadStoreElimination.cpp:57-95 | What the visits leave, read off the maps of accesses, the walker and the two analyses: no two stores meet all the conditions. |
| DsePass.ErasedExactly | DSE/DeadStoreElimination.cpp:86-87 | Of the instructions of a block exactly those not logged stay. |
| DsePass.EraseAllSameBehaviour | DSE/DeadStoreElimination.cpp:57-95 | Erasing one justified store after another keeps every run on those inputs, and keeps the analyses' answers right for the next. |
| DsePass.EraseAllWellFormed | DSE/DeadStoreElimination.cpp:57-95 | Whatever the analyses answer, the pass leaves a well-formed function well formed. |
| DseSsa.EraseWellFormed | DSE/DeadStoreElimination.cpp:86-87 | Erasing a store keeps unique ids, complete PHIs and dominated uses. |
| DsePass.PairsOkAllUnchecked | DSE/DeadStoreElimination.cpp:57-95 | If the pairs the rule proposes in the input function meet the unchecked conditions, every erased pair meets them when its turn comes. |
| DseKept.NoneBetweenKept | DSE/DeadStoreElimination.cpp:86-87 | Erasing a third store brings nothing between two stores that had nothing between them, over all paths. |
| DseKept.NoneBetweenBefore | DSE/DeadStoreElimination.cpp:86-87 | And if nothing is between them once it has been erased, nothing was before. |
| DseStatic.DeadStoreSameBehaviour | DSE/DeadStoreElimination.cpp:68-87 | A store that a later, no narrower store must-aliases and post-dominates can be erased without changing any run on the inputs on which the alias answers hold from the one store to the other, when nothing on the paths between them reads the location, calls, may trap or gives the pointer a new value. |
| DseStatic.DeadStoreUnread | DSE/DeadStoreElimination.cpp:68-87 | Under those conditions no such run looks at a byte of the store before it is overwritten. |
| DseStatic.RegionClosed | DSE/DeadStoreElimination.cpp:82-84 | By post-dominance, whatever is reached from the earlier store without passing the later one leads on, and only into blocks reached likewise. |
| Dse.UnreadSameBehaviour | DSE/DeadStoreElimination.cpp:86-87 | Erasing a store none of whose bytes is ever looked at before being overwritten changes no run, loops and other stores included. |
| Dse.EraseKeepsUp | DSE/DeadStoreElimination.cpp:86-87 | Up to the first look at such a byte, the run without the store has every value of the run with it, and memories that differ on those bytes only. |
| Memory.ErasureExact | DSE/DeadStoreElimination.cpp:75-87 | Between two stores to one address, the first goes unnoticed for every value and memory if and only if no load in between overlaps it and the second is at least as wide. |
| DseKept.AnalysesKept | DSE/DeadStoreElimination.cpp:47-51 | After a justified erasure the alias answers relied on and the post-dominance answers, all computed before, are right for the smaller function. |
| DseExamples.LoadBetweenBreaks | DSE/DeadStoreElimination.cpp:13-36 | With both analyses right, the rule proposes a store that a load in between still reads, and erasing it changes the result. |
| DseExamples.NarrowerStoreBreaks | DSE/DeadStoreElimination.cpp:78-84 | With both analyses right, the rule proposes a store that a narrower one only partly overwrites. |
| DseExamples.MovedPointerBreaks | DSE/DeadStoreElimination.cpp:78-84 | With both analyses right, the rule proposes a store in a loop whose pointer moves before the later store. |
| DseExamples.OtherPointerRead | DSE/DeadStoreElimination.cpp:75-87 | A function that meets every condition, on the inputs on which a call returns a new pointer, although memory is read through that pointer between the two stores. |
| DseExamples.OtherPointerMatters | DSE/DeadStoreElimination.cpp:75-87 | On an input on which the call returns the stored-to pointer, the same erasure shows. |
| DseLoops.AdvancingPointer | DSE/DeadStoreElimination.cpp:75-87 | A loop that stores twice to the byte after its moving pointer and reads the byte at the pointer in between: the rule proposes the first store, every condition is met on all inputs, also those that never leave the loop, and it can go. |
| DseLoops.SometimesStored | DSE/DeadStoreElimination.cpp:75-87 | A loop in which only some trips reach the first store, through an address of its own that is recomputed on them: the must-alias answer is right from each execution of it to the second store, and it can go on every input. |
| DseLoops.StaleAddress | DSE/DeadStoreElimination.cpp:75-77 | On a trip that does not reach it, that answer is wrong about the address left over, which is why answers are only asked for between the two stores. |
| DerivedIv.RecurrenceIsMultiple | DIVdir/DerivedInductionVar.cpp:90-95 | At every width and in every iteration k, s + c * k equals c * k if and only if s is zero in that width. |
| DerivedIv.VisitMultipleIff | DIVdir/DerivedInductionVar.cpp:80-101 | On any input the recurrence is right about, wherever the start comes from: at any one visit of the loop header, the replacement has the variable's value if and only if the value with which the loop was last entered is zero in its width. |
| DerivedIv.MultipleIffZeroStart | DIVdir/DerivedInductionVar.cpp:80-101 | It has it at every visit in every run on those inputs if and only if on them the variable starts at zero whenever the loop is entered. |
| DerivedIv.LiteralStartIff | DIVdir/DerivedInductionVar.cpp:80-101 | With a constant start, in a loop that some run enters, it has it everywhere if and only if the constant is zero in its width. |
| DerivedIv.EntriesGiveStart | DIVdir/DerivedInductionVar.cpp:61-77 | A start can be read off the function: if all entries of the PHI from outside the loop are one literal, every entry of every run starts with it; at zero, if that literal is zero in its width. |
| DerivedIv.RecurrenceAt | DIVdir/DerivedInductionVar.cpp:85-95 | On any input the recurrences are right about, at every visit, through any number of entries and wrap-arounds, the variable is its last start plus c times the counter. |
| DerivedIvSim.ReplaceSameBehaviour | DIVdir/DerivedInductionVar.cpp:93-101 | Replacing all uses of a variable that is c times the counter, and erasing its PHI, changes no run on the inputs on which it is. |
| DerivedIvSim.ReplaceKeepsUp | DIVdir/DerivedInductionVar.cpp:97-101 | At every point the product holds the replaced variable's value, and every other value is what it was. |
| DerivedIvSim.RecursKept | DIVdir/DerivedInductionVar.cpp:80-83 | Scalar evolution's answers about the other PHIs stay right after a replacement. |
| DerivedIvSsa.ReplaceWellFormed | DIVdir/DerivedInductionVar.cpp:93-101 | One replacement keeps unique ids, complete PHIs and dominated uses, whether or not the values agree. |
| DerivedIvPass.EliminateWellFormed | DIVdir/DerivedInductionVar.cpp:46-110 | Whatever scalar evolution answers, a whole nest is rewritten into a well-formed function if its counters are PHIs of their headers. |
| DerivedIvPass.ReplaceOne | DIVdir/DerivedInductionVar.cpp:80-104 | One variable of the list replaced: no run changes, and the rest of the list can still be replaced. |
| DerivedIvPass.EliminateGood | DIVdir/DerivedInductionVar.cpp:46-110 | A whole nest is rewritten without changing any run on the inputs on which scalar evolution is right and each replaced variable starts at zero. No PHI to be replaced is left in its header, nor in that of any loop inside it reached through loops with a counter. |
| DerivedIvPass.ListText | DIVdir/DerivedInductionVar.cpp:46-110 | Read off the result, by recursion over the nests: no such PHI is left in any of the loops, and every PHI that is gone was one. |
| DerivedIvPass.InductionVariableElimination.EliminateInLoop | DIVdir/DerivedInductionVar.cpp:46-110 | Collecting, replacing and recursing compute the closed form; without a canonical counter the loop and everything inside it is left alone. In the loop and in all loops inside it that are reached through loops with a counter, no integer PHI but the counter is left that scalar evolution calls an affine recurrence of that loop with a constant step. |
| DerivedIvPass.InductionVariableElimination.ReplaceDerived | DIVdir/DerivedInductionVar.cpp:80-104 | The collected variables with a constant step are replaced in order, each product going after those inserted before. |
| DerivedIvPass.InductionVariableElimination.Run | DIVdir/DerivedInductionVar.cpp:26-44 | All outermost loops are rewritten in turn: of the PHIs of the function exactly those are gone that scalar evolution calls affine recurrences, with a constant step, of the loop they head, in loops reached through loops with a counter. A well-formed function stays so if the counters are PHIs of their headers, whatever scalar evolution answers. On any set of inputs on which scalar evolution is right, no run changes when every replaced variable starts at zero, as it does when scalar evolution gives each of them a constant start of zero. |
| DerivedIvExample.ParameterStart | DIVdir/DerivedInductionVar.cpp:80-104 | A loop whose derived variable starts at a parameter, with every analysis right on the inputs whose argument is a byte: on each of them the product is right at a visit, and the whole run kept, if and only if the argument is zero. |
| DerivedIvExample.NonzeroStartBreaks | DIVdir/DerivedInductionVar.cpp:93-95 | With every analysis right on all inputs, a derived variable that starts at one makes the pass change every run. |
| Mba.AddIdentity | lib/MBAAdd.cpp:73-100 | In the order the code emits them, the eight operations compute a + b on 8 bits, for all operands. |
| Mba.AffineInverse | lib/MBAAdd.cpp:73-100 | Times 151 plus 111 undoes times 39 plus 23 on 8 bits. |
| Mba.AffineInverseBack | lib/MBAAdd.cpp:73-100 | And the other way round, so the two maps are inverse. |
| Bits.XorPlusTwiceAnd | lib/MBAAdd.cpp:88-96 | Exclusive or plus twice the conjunction is the sum, for operands of any size. |
| Mba.SubIdentity | lib/MBASub.cpp:60-64 | (a + ~b) + 1 is a - b at every width. |
| Bits.XorOnes | lib/MBASub.cpp:62 | Exclusive or with all ones is the bitwise complement at every width. |
| Mba.PieceRuns | lib/MBAAdd.cpp:75-108 | One substitution leaves every earlier value and the original instruction's value as they were, and fails exactly when the original does. |
| Mba.BodyRewritten | lib/MBAAdd.cpp:46-113 | A rewritten block of any length computes the value of every original instruction and has the same effects. |
| Mba.RewriteSameBehaviour | lib/MBAAdd.cpp:41-115 | Rewriting a block changes no run of the function. |
| MbaText.RewriteText | lib/MBAAdd.cpp:46-108 | The rewritten block can be cut into the texts of its instructions, in order: the operation and the width alone decide whether an instruction's text is its eight (or, at `lib/MBASub.cpp:44-72`, three) new instructions or itself. |
| MbaText.NoDifferenceLeft | lib/MBASub.cpp:44-72 | No integer subtraction is left in the block. |
| Mba.CountAfterRewrite | lib/MBAAdd.cpp:46-113 | A rewritten block offers three 8-bit additions for each one substituted, so ending depends on never revisiting what is emitted; of subtractions none is left. |
| MbaPass.MBA.SubstituteAdd | lib/MBAAdd.cpp:62-108 | Emitting the instructions one by one before the cursor and replacing the addition gives the closed form, with the cursor on the replacement. |
| MbaPass.MBA.RunOnBasicBlock | lib/MBAAdd.cpp:41-115 | The iterator loop terminates, rewrites every eligible instruction of the original block exactly once (8-bit additions here, integer subtractions of any width at `lib/MBASub.cpp:39-79`) and counts it; changed is returned if and only if there was one. |
| MbaSsa.RewriteWellFormed | lib/MBAAdd.cpp:73-108 | Rewriting a block keeps unique ids, complete PHIs and dominated uses: each temporary is fresh and defined before it is read. |
| MbaPass.MBA.Run | lib/MBAAdd.cpp:117-126 | Every block is rewritten once, in any order: each sum of two integers of width 8 has given way to its eight instructions, the last under its id, and every other instruction is as it was; no run changes, and a well-formed function stays so. Likewise at `lib/MBASub.cpp:81-90`, for the difference of two integers of any width, of which none is left. |
| MbaPass.MBA.SubstituteSub | lib/MBASub.cpp:55-72 | As for addition, with the complement, the sum and the increment. |

## Left out

- MergeBBPass.MergeBB.Run: for a whole run, matching entries are sufficient, not necessary; for one merge between blocks with PHIs whose shared entries agree the exact condition is given (`MergeIff`).
- PHIs have one entry per predecessor block. LLVM wants one per edge, with multiplicity (two switch cases that lead to one block), which is not represented; "complete" in `RetainedPhisComplete`, `MergedWellFormed`, `CrossedPhisBreak` and the theorems on well-formedness means complete per predecessor.
- Values of arguments, globals, loads and replies are unbounded in the semantics; that they fit their types is one of the conditions a set of inputs can express.
- DeleteDeadBlock: drops the PHI entries of the deleted block but does not fold a PHI left with one entry into its value.
- DseStatic.DeadStoreSameBehaviour: sufficient, not necessary, for a whole function, since a load whose result does not matter is harmless; the exact condition is given for two stores and the loads between them (`ErasureExact`).
- DsePass.DeadStoreElimination.Run: an access whose instruction has been erased is treated as gone, since MemorySSA is not updated by the code and what it then yields is not defined; a clobbering definition that is a call is passed over, where LLVM would stop on an assertion.
- Mba.Expand: the exclusive or is emitted before the conjunction; C++ leaves the order of the two open.
- DerivedIvPass.NestOk: derived variables have the counter's type, as LLVM asserts when it multiplies; widths above 64 bits, for which the constant would not fit, are not excluded.
- DerivedIvPass.Scev: the start of a recurrence is one operand; scalar evolution's compound start expressions are not represented.
- The expander may reuse or simplify an existing product instead of emitting a multiplication; the multiplication is always emitted here.
- Poison, undef, nsw/nuw flags, volatile and atomic accesses, floating point, exceptions and landing pads.
- Constant folding in IRBuilder, which would emit fewer instructions for constant operands.
- How LLVM computes dominator and post-dominator trees, loops, MemorySSA, alias analysis and scalar evolution; they are inputs with contracts.
- The random number generator: any value of a block's set may be picked.
- Reuse of addresses of erased instructions as keys of the remapper; ids are never reused.
- In DuplicateBB a value map is keyed by instruction; the model keys it by id and follows replaced values explicitly.
- Names given to blocks, debug output, statistics beyond the counters, pass registration and plugin entry points.
- lib/OpcodeCounter.cpp, lib/StaticCallCounter.cpp, tools/StaticMain.cpp, lib/FindFCmpEq.cpp, HelloWorld/HelloWorld.cpp, lib/InjectFuncCall.cpp, lib/DynamicCallCounter.cpp, ARDir/AffineRecurrence.cpp and MSD/MemorySSADemo.cpp: out of scope; they count, filter, print or instrument.
- lib/ConvertFCmpEq.cpp: out of scope; a floating-point change of meaning by design.
