# Verification of the AOT block optimiser

The repository is a binary optimiser for ahead-of-time translated LoongArch code. Its unit of work is
the translated block (TB): a list of decoded instructions with relocations, branch index lists and two
exits, all of which refer to instructions by position. Passes delete and rewrite instructions in place,
exits' tails are removed, blocks are merged along the control-flow graph while it is being walked, and
the result is written to a file that can be read back. This project models that code and proves that
positions keep naming the same instructions, that programs keep their meaning, and that the file keeps
its contents.

`dafny verify dfyconfig.toml` checks everything.

## How it is built

| File | What it holds |
|---|---|
| `Isa.dfy` | Instructions, 64-bit registers, and what one instruction does, on any memory. The interpreted ones follow the LoongArch Reference Manual Volume 1, sections 2.2.1, 2.2.4 and 2.2.5; every other one is uninterpreted. |
| `Block.dfy` | A block as a value (`Block`), its well-formedness `Wf`, deletion (`Cut`, `DropInsn`) and insertion. |
| `LinkList.dfy`, `Tb.dfy` | The sentinel list and the TB as classes; every method is tied to a function on `View()`. |
| `Edits.dfy`, `SlotView.dfy`, `Peephole.dfy` | Histories of peephole edits; the code with a mark on relocated instructions; the editing steps passes take. |
| `RemoveNon.dfy`, `StackRuns.dfy`, `StackPass.dfy`, `StackVisitor.dfy`, `ConstFold.dfy`, `ConstPass.dfy`, `ConstRegSet.dfy`, `ConstVisitor.dfy` | The passes: a function on code with its meaning (`*Runs`, `*Fold`); what the visitor leaves of any block, and when that is the function (`*Pass`); the visitor on the heap (`*Visitor`). The push and pop passes are one text with a `Kind`, the two constant passes one with a `Shape`. |
| `FixBranch.dfy`, `RemoveTail.dfy`, `TailMeaning.dfy`, `Repair.dfy`, `ExitMeaning.dfy` | Branch repair; tail removal, and when it leaves relocated code alone; repair after any sequence of passes; where an exit without a linked successor leads afterwards. |
| `BlockRun.dfy`, `BlockMeaning.dfy`, `OneWay.dfy`, `Optimiser.dfy` | Running a block with its branches; what the passes keep of a two-exit block, and of one with fewer exits; the optimiser on the heap, end to end. |
| `Merge.dfy`, `Graph.dfy`, `Walk.dfy`, `TuVisitor.dfy`, `Traversal.dfy`, `Settle.dfy`, `Load.dfy`, `Segment.dfy`, `Driver.dfy` | Merging two blocks; graphs of linked blocks and runs of merges; the depth-first walk as a function and on the heap; the read-only traversals; linking; loading; the driver's round over a segment, and its loop over all of them. |
| `Layout.dfy`, `Writer.dfy`, `SegmentWriter.dfy`, `Reader.dfy`, `RoundTrip.dfy` | The file: typed records at byte offsets, the writer's loops, finding each record again, and loading a written block. |
| `Witness.dfy` | Concrete inputs on which a promise fails. |

A machine (`Machine<M>`) fixes memory loads and stores and what uninterpreted instructions do. A
statement quantified over machines therefore holds for every memory model, and equality of final states
includes the sequence of accesses made. A relocated instruction counts as uninterpreted, since the loader
rewrites it.

## The main results

- **Editing.** Every deletion keeps a block well formed and every surviving branch entry, live
  relocation and exit on its instruction (`CutWf`, `CutNames`, `CutRelNames`, `DropEntryExact`), and so
  does every history of passes (`LeadsWf`, `LeadsInsn`, `LeadsRel`, `LeadsExit`, `LeadsBranches`,
  `LeadsAvailable`). Loading establishes the invariant (`Load`).
- **The passes.** Coalescing pushes or pops is right exactly when the run is safe (`RunExact`), whatever
  its length; the index that `opt_sequence_*` passes is right through a chunk and falls two behind with
  every further one, and the edits still come out right because nothing refers into the run
  (`SequenceRight`, `DropNear`). Constant rematerialisation preserves meaning and is idempotent. What
  the visitors leave is stated for every block, refused deletions, wrong indices and killed relocations
  included (`StackVisitors.Visit`, `ConstVisitors.Visit`); where it is the pass function is proved apart
  (`VisitTracked`, `VisitRight`).
- **The optimiser on a block.** From every state, a two-exit block after all passes, nop removal, tail
  removal and branch repair arrives first at the same exit in the same state as the original; a block
  with one exit or none arrives at its first B in the same state (`Optimise`, `OptimisedBlock`,
  `OneWayBlock`). Repair undoes every stale offset of the conditional branch: it aims it at the position
  to which the passes have carried its target (`RepairUndoes`, `FollowInsn`). Where an exit without a
  linked successor leads is exact too (`ExitAtLast`, `ExitOptimised`), and so is when repair changes
  nothing (`RepairIdle`).
- **Merging.** A merge is slot for slot the prefix and the successor exactly when no live relocation
  straddles the exit (`MergedSlots`), and tail removal leaves the rest alone exactly when none is torn
  (`BothTailsSlots`). Every sequence of legal merges keeps the graph sound (`AfterSound`) and what the
  linked program computes: the same states, and control leaves at the same place of the same block
  (`AfterMeaning`). The walk, which edits the graph it walks, terminates on every graph, makes only
  legal merges, leaves blocks on its stack alone and deals with everything reachable
  (`UnifyOneSuccessor`, `WalkGood`, `WalkReaches`, `WalkAllMeaning`); which merges one walk, or the
  walks from all entry blocks, leave over is exact (`WalkLeaves`, `WalkAllLeaves`). The driver's
  loop over the segments of a file, which links, decodes, walks and repairs one after the other, leaves every
  block as the next round needs it, and all of them well formed in the end (`RunSegment`, `Drive`).
- **The file.** The writer leaves exactly the described image, one unbroken run of records that ends at
  `how_many_bytes` (`WriteToBuf`, `OneRun`). The first file a process writes gives every block back when
  it is loaded, only its dead relocations gone (`BlockComesBack`, `CleanedSame`, `CleanedWf`).

- **The decisions.** What each pass and walk decides is also stated without the predicate that decides it,
  in terms of opcodes, immediates, offsets and links: which blocks are available (`AvailableBoth`,
  `AvailableOne`, `AvailableNone`), what coalescing and rematerialisation turn code into (`PassFolds`,
  `PassElse`, `PassBuilds`, `PassPlain`), what tail removal leaves (`TrimmedCode`) and repair changes
  (`RepairAimsBne`, `RepairAimsExit`, `RepairElsewhere`), which blocks merge (`WalkMerges`, `WalkMerged`),
  which are linked (`LinkByOffset`, `SettleAllTb`) and in which order they are visited (`BreadthFirst`,
  `DiamondTour`, `DiamondLeaves`).

Where the code does not keep a promise, the exact condition is proved, and for most an input on which it fails:

- A run on base `r0`, or one that accesses its base register anywhere but first in a chunk, is not
  coalesced soundly; the difference shows from every state (`RunExact`, `PushOfBase`).
- Coalescing does not look at relocations before it starts: an `addi.d` under one stays, although the last one
  of the chunk moves by the whole stride (`RoundExact`, `RelocatedPush`).
- The push and pop visitors move their running index on by one more than a run has pairs. That is right
  exactly for runs of one chunk, 256 pushes or 255 pops (`AdvanceExact`, `LongRunAdvance`).
- `add_insn` leaves a branch at the insertion index one short, because its branch adjuster compares with
  `>` where the others use `>=` (`InsertExact`, `InsertBeforeBranch`); deleting what was inserted
  restores the block unless both are branches of one class and a later one follows (`InsertThenDelete`,
  `InsertThenDeleteBranch`).
- Merging kills a live relocation that straddles the exit while its slots in front stay (`MergedSlots`,
  `MergeTears`), and tail removal one that reaches into a tail (`CutSlots`, `OneTailSlots`,
  `BothTailsSlots`, `CutTears`).
- `remove_tail` takes the false exit away when it lies behind a linked true exit (`TrimmedWf`,
  `FalseExitLost`).
- The B of an exit whose successor is not linked leads to the stub behind it that loads the block's
  address. Repair aims it there only if the other successor is linked: `visit` leaves a block without
  linked successors out, although `fix_b` has a case for it. So after any passes it still leads there if
  and only if the other successor is linked or the distance is unchanged (`ExitAtLast`); of the
  optimiser's own passes only nop removal works behind the first branch, so the distance is unchanged
  exactly if no nop in between was removed (`ExitOptimised`, `StaleExit`).
- One walk misses a merge exactly if a block's only successor lost its own exits after the walk had
  looked at the block, as in a chain of three (`WalkLeaves`, `ChainLeaves`). The walk from a later entry
  block, with fresh sets, may make it; what is left over in the end is exact (`WalkAllLeaves`, and
  `AfterLeaves` for blocks that no walk finishes), as with two entries in front of such a chain
  (`ForkLeaves`).
- A segment is linked before later segments are decoded. Merging a block of a later segment takes
  nothing from it, which is what merging it afterwards would do only if it has no code (`EarlyMerge`).
- A process that has written relocations before writes a header without the offset of the table, and
  a count that includes the earlier ones (`TableComesBack`).
- A block without relocations in front of the first relocation of the file gets the slice 0 to -1, which
  the reader counts through as unsigned (`BlockComesBack`, `FirstBlockWithoutRels`).
- The check that x86 addresses are unique forms the address in 32 bits and the map key in 64: of two
  blocks with one address it reports the later exactly if the earlier lies below 4 GiB
  (`RegistersExact`). Below 4 GiB that is uniqueness (`RegistersUnique`); a segment that begins at or
  above 4 GiB may hold any number of blocks with one address (`HighSegmentCollides`).

Guards that are preconditions of the statements on meaning:

- Runs of the push and pop passes are of one chunk and under no live relocation (`Trackable`) and safe
  (`PassSafe`); no matched constant group is under a live relocation (`Unrelocated`).
- A two-exit block has its BNE in front of the false exit and not relocated, the false exit first, and
  no live relocation up to the false exit that reaches into a tail (`TwoExits`, `FrontStays`); in a
  block with fewer exits none in front of the first B reaches into a tail that goes (`WayStays`).
- Of the linked blocks that are merged (`NodeGuarded`): no live relocation straddles the exit of a block
  with one successor; code in front of that exit gets behind it only through it; no block jumps in front
  of its own start. A relocated B is exempt, because the loader aims it at an address: it leaves for
  there, from the merged block as from the original one.
- Uninterpreted instructions write at most their destination register.

Elsewhere: offsets in bytes fit 32 bits; segment names are shorter than `PATH_MAX`; the decoder undoes the
encoder; x86 addresses are unique.

## Model

| member | source | states |
|---|---|---|
| Isa.OrBit | lib/Vistor/util.cpp:58-78 | the model of `ori` is the bitwise or with twelve zero-extended bits |
| Isa.AndBit | lib/Vistor/RemoveNonVistor.cpp:9-12 | and that of `andi` the bitwise and |
| LinkLists.ListNode.InsertAtNext | include/LinkList/linklist.hpp:19-26 | relinks exactly the four pointers around the new node and no other |
| LinkLists.ListNode.InsertAtPrev | include/LinkList/linklist.hpp:28-35 | the mirror image of insertion behind |
| LinkLists.ListNode.RemoveSelf | include/LinkList/linklist.hpp:37-44 | joins the neighbours, detaches the node and returns its data |
| LinkLists.LinkList.constructor | include/LinkList/linklist.hpp:56-62 | the two sentinels form the empty sequence |
| LinkLists.LinkList.Get | include/LinkList/linklist.hpp:64-74 | the walk ends on the i-th node |
| LinkLists.LinkList.InsertAtBegin | include/LinkList/linklist.hpp:81-86 | the sequence gains the element in front; prev and next stay inverse |
| LinkLists.LinkList.InsertAtTail | include/LinkList/linklist.hpp:88-93 | the sequence gains the element at the end |
| LinkLists.LinkList.InsertAfter | include/LinkList/linklist.hpp:95-100 | the sequence gains the element behind the given node, all other nodes keep their order |
| LinkLists.LinkList.Begin | include/LinkList/linklist.hpp:102-105 | the first node, or the tail sentinel of an empty list |
| LinkLists.LinkList.Remove | include/LinkList/linklist.hpp:112-119 | the sequence loses exactly that element; the successor is returned and every other node stays linked, so iterators to them stay valid |
| Tbs.TB.InScopeOfRel | lib/AOT_class/aot_class.cpp:22-36 | true exactly if a live relocation overlaps the range of instructions |
| Blocks.PositionsSound | lib/Vistor/DisassembleVistor.cpp:5-30 | branch lists are in order and list only branches of their class |
| Blocks.PositionsComplete | lib/Vistor/DisassembleVistor.cpp:5-30 | and miss none of them |
| Blocks.DropEntryExact | lib/AOT_class/aot_class.cpp:297-335 | erasing and lowering entries in place turns the exact list of the old code into the exact list of the new code |
| Blocks.DropIsCut | lib/AOT_class/aot_class.cpp:337-371 | one deletion with its relocation is the one-instruction case of cutting a range |
| Blocks.DropNear | lib/AOT_class/aot_class.cpp:374-408 | inside a range nothing refers to, a deletion with an index that is too small still adjusts everything as the true index would |
| Blocks.CutWf | lib/AOT_class/aot_class.cpp:337-408 | deletion keeps relocations in bounds and disjoint, branch lists exact and exits on their branch, unless a valid exit is deleted |
| Blocks.CutNames | lib/AOT_class/aot_class.cpp:337-408 | where each surviving instruction ends up, and that it is the same instruction |
| Blocks.CutRelNames | lib/AOT_class/aot_class.cpp:337-408 | a surviving relocation covers the same instructions, slot by slot |
| Tbs.TB.AdjustBranches | lib/AOT_class/aot_class.cpp:309-335 | the list of the deleted class loses the entry, entries behind move down |
| Tbs.TB.AdjustRelsAndExits | lib/AOT_class/aot_class.cpp:391-406 | live relocations and valid exits behind the index move down by four bytes |
| Tbs.TB.DeleteIthInsn | lib/AOT_class/aot_class.cpp:374-408 | refuses and changes nothing under a live relocation, otherwise deletes the node and adjusts by the index |
| Tbs.TB.KillCovering | lib/AOT_class/aot_class.cpp:341-350 | stopping at the first covering relocation kills them all, since they are disjoint |
| Tbs.TB.DeleteIthInsnAlongWithRel | lib/AOT_class/aot_class.cpp:337-371 | the block is cut by that instruction, and relocations over it are dead |
| Tbs.TB.DeleteRun | lib/Vistor/TU_Vistor.cpp:60-64 | deleting count times at one index cuts that range |
| Tbs.TB.DeleteIthRel | lib/AOT_class/aot_class.cpp:278-295 | removes exactly the relocation's slots; every other relocation stays as live as it was |
| Tbs.TB.AddInsn | lib/AOT_class/aot_class.cpp:66-103 | refuses under a live relocation, otherwise inserts and raises what is behind |
| Tbs.TB.RaiseBranches | lib/AOT_class/aot_class.cpp:50-64 | entries strictly behind the index move up |
| Tbs.TB.AddBranchEntry | lib/AOT_class/aot_class.cpp:38-48 | an instruction is listed under its own branch class only |
| Blocks.InsertExact | lib/AOT_class/aot_class.cpp:50-103 | after insertion the branch lists are exact if and only if no branch sat at the index |
| Blocks.InsertThenDelete | lib/AOT_class/aot_class.cpp:50-103 | inserting and deleting again restores the whole block if and only if not a branch goes in front of one of its own class that is not the last |
| Blocks.InsertRelNames | lib/AOT_class/aot_class.cpp:85-91 | an insertion leaves each live relocation on its instructions |
| Blocks.InsertExitNames | lib/AOT_class/aot_class.cpp:93-100 | and each valid exit on its B |
| Tbs.TB.PeepholeOptAvailable | lib/AOT_class/aot_class.cpp:136-235 | decides availability, which the next three rows say in terms of the code |
| Blocks.AvailableBoth | lib/AOT_class/aot_class.cpp:136-172 | with both exits valid a block is available if and only if it has one BNE and no other branch than Bs, and these are the false exit before the true one, or each of them and one B behind it that has an epilogue relocation, live or not |
| Blocks.AvailableOne | lib/AOT_class/aot_class.cpp:173-230 | with one valid exit, if and only if that exit is the only branch, or the only one but for one B behind it that has an epilogue relocation |
| Blocks.AvailableNone | lib/AOT_class/aot_class.cpp:231-234 | with none, if and only if one B is the only branch |
| Tbs.TB.AddRels | lib/Vistor/AddRelsVistor.cpp:3-14 | takes the slice that unsigned counting yields, all live |
| Tbs.TB.Disassemble | lib/Vistor/DisassembleVistor.cpp:5-30 | the code is the decoded words and the branch lists are exact for it |
| Loads.Load | tools/opt/driver.cpp:81-83 | a loaded block is well formed exactly if its record and relocation slice are |
| Loads.Register | lib/AOT_class/aot_class.cpp:112-124 | reports an address that is already a key |
| Loads.RegistersExact | lib/AOT_class/aot_class.cpp:112-124 | a segment registers if and only if its addresses are new and, of two blocks with one address, the earlier lies at or above 4 GiB |
| Loads.RegistersUnique | lib/AOT_class/aot_class.cpp:117-124 | below 4 GiB registration succeeds exactly if addresses are new and distinct |
| Loads.HighSegmentCollides | lib/AOT_class/aot_class.cpp:112-124 | a segment that begins at or above 4 GiB registers whatever its own addresses, so two blocks with one address do |
| Edits.LeadsWf | lib/AOT_class/aot_class.cpp:374-408 | every history of edits keeps well-formedness and no relocation is lost |
| Edits.LeadsInsn | lib/AOT_class/aot_class.cpp:374-408 | instructions that were not edited are found at their tracked position |
| Edits.LeadsRel | lib/AOT_class/aot_class.cpp:22-36 | every live relocation still covers the same instructions after any passes |
| Edits.LeadsExit | lib/AOT_class/aot_class.cpp:374-408 | every valid exit still names the same instruction |
| Edits.LeadsBranches | lib/AOT_class/aot_class.cpp:297-335 | every branch entry still names the same instruction |
| Edits.LeadsAvailable | lib/AOT_class/aot_class.cpp:136-235 | a block available for peephole optimisation stays so through any passes |
| SlotViews.SlotsCut | lib/AOT_class/aot_class.cpp:374-408 | which instructions are relocated does not change for those that stay |
| SlotViews.CutSlots | lib/AOT_class/aot_class.cpp:337-371 | cutting a range leaves the marks of the rest as they are if and only if no live relocation is partly inside |
| RemoveNon.DropNopsMeaning | lib/Vistor/RemoveNonVistor.cpp:3-29 | without its nops code reaches the first branch in the same state |
| RemoveNon.DropNopsIdempotent | lib/Vistor/RemoveNonVistor.cpp:3-29 | one run removes every nop not under a relocation |
| RemoveNon.DropsExactly | lib/Vistor/RemoveNonVistor.cpp:9-12 | what goes is `andi r0, r0, 0` under no live relocation and nothing else |
| RemoveNon.Visit | lib/Vistor/RemoveNonVistor.cpp:3-29 | on any block: the loop deletes at its tracked index, which moves on only where nothing was deleted |
| RemoveNon.NopsRight | lib/Vistor/RemoveNonVistor.cpp:3-29 | that removes exactly the nops that may go, by harmless edits, and brings two instructions that stay closer by the nops between them |
| StackRuns.ChunkMeaning | lib/Vistor/St_Addi_Vistor.cpp:18-42 | a chunk with folded offsets makes the same accesses and leaves the same registers modulo 2^64 |
| StackRuns.RunMeaning | lib/Vistor/St_Addi_Vistor.cpp:18-47 | so does a safe run of any length, in as many chunks as it takes |
| StackRuns.RunExact | lib/Vistor/Ld_Addi_Vistor.cpp:18-45 | coalescing a run is right if and only if the run is safe |
| StackRuns.CoalescePlain | lib/Vistor/Ld_Addi_Vistor.cpp:18-45 | every emitted immediate is in range: pushes in [-2048, -8], loads in [0, 2032], their addi.d up to 2040 |
| StackRuns.CoalesceLength | lib/Vistor/St_Addi_Vistor.cpp:18-47 | n pairs become n accesses and one addi.d per chunk |
| StackRuns.MaxFits | lib/Vistor/Ld_Addi_Vistor.cpp:17-20 | the chunk bound is the largest run whose total stride still has an `addi.d` |
| StackRuns.PassFolds | lib/Vistor/St_Addi_Vistor.cpp:18-84 | the next n pairs on one base register, n the most there are up to 256 pushes or 255 pops, become n accesses at offsets -8, -16, ... or 0, 8, ... and one `addi.d`, and the pass goes on behind them |
| StackRuns.PassElse | lib/Vistor/St_Addi_Vistor.cpp:49-84 | everything else stays, up to the first B or BNE, where the pass stops |
| StackRuns.PassMeaning | lib/Vistor/St_Addi_Vistor.cpp:49-84 | the whole pass reaches the first B or BNE in the same state with the same code behind |
| StackVisitors.OptSequence | lib/Vistor/Ld_Addi_Vistor.cpp:18-45 | the recursion over chunks on any block: which deletions are refused, what each index adjusts, where the run ends |
| StackPasses.SequenceRight | lib/Vistor/Ld_Addi_Vistor.cpp:18-45 | with its lagging index it still yields the coalesced run in place, by harmless edits, when nothing refers into the run |
| StackVisitors.Visit | lib/Vistor/Ld_Addi_Vistor.cpp:47-82 | push and pop visitor on any block: the block it leaves, with the running index as the code keeps it |
| StackPasses.VisitTracked | lib/Vistor/St_Addi_Vistor.cpp:49-84 | if every coalesced run is one chunk and unrelocated, the slots become the pass function of the old ones, by harmless edits in front of the first branch |
| StackPasses.RoundExact | lib/Vistor/St_Addi_Vistor.cpp:18-42 | one round on any block, in terms of instructions and relocations: the access gets its offset, and the `addi.d` goes unless the index is under a live relocation |
| StackPasses.AdvanceExact | lib/Vistor/St_Addi_Vistor.cpp:71-76 | the index moves on by the width of the coalesced run if and only if the run is at most 256 pushes or 255 pops |
| ConstRegSets.ConstRegSet.Kill | lib/ConstRegSet/ConstRegSet.cpp:11-18 | forgets exactly that register; size stays the number of recorded registers |
| ConstRegSets.ConstRegSet.Set | lib/ConstRegSet/ConstRegSet.cpp:25-38 | records the constant, never for r0, and keeps size |
| ConstRegSets.ConstRegSet.Get | lib/ConstRegSet/ConstRegSet.cpp:40-46 | returns what was recorded |
| ConstFold.GroupExec | lib/Vistor/util.cpp:58-78 | running a matched group leaves its evaluated constant in the register and nothing else changed |
| ConstFold.AddiExec | lib/Vistor/util.cpp:32-56 | the addi.d from a register with a known constant rebuilds the exact constant |
| ConstFold.ValueRange | lib/Vistor/util.cpp:58-78 | evaluated constants are far inside 64 bits, so their differences are exact |
| ConstFold.ValueBits | lib/Vistor/util.cpp:58-78 | the evaluated constant bit by bit: twelve from the `ori`, on top of them those of the `lu12i.w`, and from bit 32 on those of the `lu32i.d` |
| ConstFold.SourceExact | lib/Vistor/util.cpp:8-11 | a register is found to build a constant from if and only if one with a recorded constant at a signed twelve-bit distance exists, and it is the lowest of them |
| ConstFold.PassBuilds | lib/Vistor/Lu12i_Ori_Lu32i_Vistor.cpp:41-111 | a group becomes one `addi.d` from that register in the inner loop and stays otherwise; its constant is recorded either way, but never for r0 |
| ConstFold.PassPlain | lib/Vistor/Lu12i_Ori_Lu32i_Vistor.cpp:41-111 | any other instruction stays and, in the inner loop, its register's constant is forgotten; without constants that loop ends; at a B or BNE the pass does |
| ConstFold.PassDecoded | lib/Vistor/util.cpp:8-11 | if every instruction has an encoding, so has every one the pass leaves |
| ConstFold.PassMeaning | lib/Vistor/Lu12i_Ori_Vistor.cpp:32-102 | the pass reaches the first B or BNE in the same state, for every start state in which the recorded constants hold |
| ConstFold.PassIdempotent | lib/Vistor/Lu12i_Ori_Vistor.cpp:32-102 | running it twice is running it once when no group is relocated |
| ConstFold.GroupsFreeAfter | lib/Vistor/Lu12i_Ori_Lu32i_Vistor.cpp:41-111 | the pass makes no new relocated group |
| ConstVisitors.Substitute | lib/Vistor/util.cpp:32-56 | the group becomes one addi.d, and relocations on its other instructions die with them |
| ConstPasses.RebuiltRels | lib/Vistor/util.cpp:32-56 | a relocation survives that exactly if it covers none of the deleted instructions |
| ConstVisitors.InnerLoop | lib/Vistor/Lu12i_Ori_Lu32i_Vistor.cpp:41-86 | the loop with its register set ends at a B or BNE, at the end, or without constants, with exactly that much of the visitor's work done |
| ConstVisitors.Visit | lib/Vistor/Lu12i_Ori_Lu32i_Vistor.cpp:88-111 | on any well-formed block: the block it leaves, killed relocations included |
| ConstPasses.AnyCode | lib/Vistor/Lu12i_Ori_Lu32i_Vistor.cpp:41-111 | it is well formed and its code is the pass function's, whatever is relocated |
| ConstPasses.VisitRight | lib/Vistor/Lu12i_Ori_Vistor.cpp:32-102 | without relocated groups the slots are the pass function's too, reached by harmless edits in front of the first branch |
| FixBranch.FixBne | lib/Vistor/FixBranchVistor.cpp:51-72 | the last BNE is aimed at the true exit |
| FixBranch.RepairAfterEdits | lib/Vistor/FixBranchVistor.cpp:51-72 | after any edits the repaired BNE targets the same instruction as before them |
| Repairs.RepairUndoes | lib/Vistor/FixBranchVistor.cpp:51-72 | after any sequence of passes and tail removals fix_bne aims the BNE, wherever it was carried, at the position its target was carried to |
| Repairs.FollowInsn | lib/AOT_class/aot_class.cpp:337-408 | the carried position holds the same instruction, and different instructions have different ones |
| Repairs.TrimStanding | lib/Vistor/RemoveTailVistor.cpp:3-37 | tail removal leaves the branch and both exits on their instructions |
| FixBranch.AimedLands | lib/Vistor/FixBranchVistor.cpp:51-72 | it lands on a B, and nothing positional changes |
| FixBranch.FindClosest | lib/Vistor/FixBranchVistor.cpp:3-17 | the live LOAD_TB_ADDR relocation of least offset behind the exit, or none |
| FixBranch.FixExit | lib/Vistor/FixBranchVistor.cpp:19-33 | the exit is aimed at that relocation, or left alone |
| FixBranch.Visit | lib/Vistor/FixBranchVistor.cpp:35-82 | which repairs are made in each combination of exits and successors |
| FixBranch.RepairIdle | lib/Vistor/FixBranchVistor.cpp:35-82 | repair changes nothing if and only if the last BNE is on the true exit and the exit it would aim on its nearest stub |
| FixBranch.RepairedWf | lib/Vistor/FixBranchVistor.cpp:35-82 | repair keeps the block well formed and everything but displacements as it was |
| FixBranch.RepairAimsBne | lib/Vistor/FixBranchVistor.cpp:51-72 | with both exits valid the last BNE lands on the true exit, whichever successors are linked |
| FixBranch.RepairAimsExit | lib/Vistor/FixBranchVistor.cpp:3-33 | with only the other successor linked, the exit's B lands on the next live LOAD_TB_ADDR relocation behind it |
| FixBranch.RepairElsewhere | lib/Vistor/FixBranchVistor.cpp:35-82 | nothing but these two changes, and of them only the displacement |
| ExitMeanings.RepairedExit | lib/Vistor/FixBranchVistor.cpp:74-82 | an exit without linked successor leads to its nearest stub after repair if and only if the other successor is linked or it did before |
| ExitMeanings.TailsExit | lib/Vistor/RemoveTailVistor.cpp:45-60 | tail removal keeps where it leads, unless its stub reaches into the tail that goes; then none is behind it |
| ExitMeanings.ExitAtLast | lib/Vistor/FixBranchVistor.cpp:74-82 | after any passes, tail removal and repair it leads to its stub if and only if the other successor is linked or the distance is as it was |
| RemoveTail.RemoveTailOf | lib/Vistor/RemoveTailVistor.cpp:3-37 | cuts what is behind the exit, up to the other exit or the end |
| RemoveTail.Visit | lib/Vistor/RemoveTailVistor.cpp:45-60 | which tails go in each combination of exits and successors, and when the block stays well formed |
| RemoveTail.TrimmedWf | lib/Vistor/RemoveTailVistor.cpp:45-60 | it does if and only if not the false exit lies behind a linked true exit |
| RemoveTail.BothTails | lib/Vistor/RemoveTailVistor.cpp:3-60 | with both successors the code is the old one through the false exit, then only the true exit, four bytes behind; relocations live exactly if untouched |
| RemoveTail.OneTail | lib/Vistor/RemoveTailVistor.cpp:54-57 | with one, only that exit's tail goes |
| RemoveTail.TrimmedCode | lib/Vistor/RemoveTailVistor.cpp:3-60 | the code that is left, in terms of code and exits alone, for every combination of valid exits and linked successors and either order of the exits |
| TailMeanings.OneTailSlots | lib/Vistor/RemoveTailVistor.cpp:54-57 | the rest keeps its marks if and only if no live relocation is partly in the tail |
| TailMeanings.BothTailsSlots | lib/Vistor/RemoveTailVistor.cpp:45-53 | with both, the code that stays keeps its marks if and only if no live relocation lies partly in it and partly in a tail |
| BlockMeanings.AvailableTwoExits | lib/AOT_class/aot_class.cpp:136-183 | which blocks available for peephole optimisation the theorems on outcomes speak of |
| BlockMeanings.OutcomeReached | lib/Vistor/FixBranchVistor.cpp:51-72 | a run of a block with its BNE on the true exit arrives first where straight-line execution says |
| BlockMeanings.NopPassOutcome | lib/Vistor/RemoveNonVistor.cpp:3-29 | nop removal keeps the exit taken and the state there |
| BlockMeanings.StackPassOutcome | lib/Vistor/St_Addi_Vistor.cpp:49-84 | push and pop coalescing keep them |
| BlockMeanings.ConstPassOutcome | lib/Vistor/Lu12i_Ori_Vistor.cpp:80-102 | constant rematerialisation keeps them |
| BlockMeanings.TrimmedKeeps | lib/Vistor/RemoveTailVistor.cpp:45-60 | tail removal keeps them, with any successors linked |
| BlockMeanings.RepairedKeeps | lib/Vistor/FixBranchVistor.cpp:35-82 | branch repair keeps them, with any successors linked, up to the exit; where its B leads is `ExitMeanings.RepairedExit` |
| BlockMeanings.OptimisedBlock | tools/opt/driver.cpp:87-93 | any passes that keep the outcome, then tail removal, then branch repair: the same first exit in the same state; where its B leads is `ExitMeanings.ExitAtLast` |
| OneWays.AvailableOneWay | lib/AOT_class/aot_class.cpp:173-235 | every block available for peephole optimisation without two exits runs straight to its first B |
| OneWays.OneWayBlock | tools/opt/driver.cpp:87-93 | any passes that keep the state there, then tail removal, then repair: the same state at the same first B, which is still the exit if it was |
| Optimisers.RunPasses | tools/opt/driver.cpp:87-90 | the passes in the driver's order, then nop removal, compute the composition of their functions; distances behind the first branch change by removed nops only |
| Optimisers.TwoExitsArrive | tools/opt/driver.cpp:87-93 | a two-exit block the optimiser has been over: the same first exit in the same state from every state |
| Optimisers.OneWayArrives | tools/opt/driver.cpp:87-93 | a block with one exit or none: the same state at its first B |
| Optimisers.ExitOptimised | lib/Vistor/FixBranchVistor.cpp:74-82 | an exit without linked successor leads to its stub afterwards if and only if the other successor is linked or no removable nop was in between |
| Optimisers.Optimise | tools/opt/driver.cpp:87-93 | passes, nop removal, tail removal and repair on the heap, with any successors linked: all three of these |
| Witnesses.StaleExit | lib/Vistor/FixBranchVistor.cpp:74-82 | a block whose false exit leads to the true exit's B after nop removal and repair |
| Witnesses.PushOfBase | lib/Vistor/St_Addi_Vistor.cpp:18-47 | two pushes, the second of the base register, that coalescing gets wrong |
| Witnesses.RelocatedPush | lib/Vistor/St_Addi_Vistor.cpp:18-47 | two pushes, the first `addi.d` relocated: it stays, although the second one moves by the stride of both |
| Witnesses.LongRunAdvance | lib/Vistor/St_Addi_Vistor.cpp:71-76 | 257 pushes leave 259 instructions, where the index moves on by 258 |
| Witnesses.InsertBeforeBranch | lib/AOT_class/aot_class.cpp:50-103 | a branch behind an inserted instruction that stays listed one short |
| Witnesses.InsertThenDeleteBranch | lib/AOT_class/aot_class.cpp:50-103 | a branch list left out of order by insertion and deletion |
| Witnesses.CutTears | lib/AOT_class/aot_class.cpp:337-371 | a cut that leaves a relocated instruction without its relocation |
| Witnesses.MergeTears | lib/Vistor/TU_Vistor.cpp:60-64 | a merge that does |
| Witnesses.FalseExitLost | lib/Vistor/RemoveTailVistor.cpp:45-60 | a block left with an exit behind its code |
| Merge.Unify | lib/Vistor/TU_Vistor.cpp:38-109 | refuses a successor with exits, otherwise dst becomes the merged block with src's links and src is unchanged |
| Merge.CutAtExit | lib/Vistor/TU_Vistor.cpp:44-64 | dst is cut from its exit branch on |
| Merge.TakeRels | lib/Vistor/TU_Vistor.cpp:66-75 | exactly src's live relocations are appended, moved behind k |
| Merge.TakeCode | lib/Vistor/TU_Vistor.cpp:77-88 | src's instructions are appended and the branch lists are exact again |
| Merge.MergedRels | lib/Vistor/TU_Vistor.cpp:60-75 | the live relocations are dst's wholly in front of k, then src's moved by 4k |
| Merge.MergedWf | lib/Vistor/TU_Vistor.cpp:38-109 | the merged block is well formed |
| Merge.MergedSlots | lib/Vistor/TU_Vistor.cpp:38-109 | it is dst in front of k and then src, relocated code included, if and only if no live relocation straddles k |
| Graphs.JoinSound | lib/Vistor/TU_Vistor.cpp:38-109 | a merge keeps the graph sound: blocks well formed, a linked exit a valid one, offsets in 32 bits |
| Graphs.JoinMeaning | lib/Vistor/TU_Vistor.cpp:38-109 | a merge preserves what the linked program computes from every block and state, and where control leaves it or to which address |
| Graphs.FirstSound | lib/AOT_class/aot_class.cpp:466-472 | the graph is sound at first if all code fits 32-bit byte counts |
| Graphs.AfterSound | lib/Vistor/TU_Vistor.cpp:111-139 | every run of legal merges keeps it sound |
| Graphs.AfterMeaning | lib/Vistor/TU_Vistor.cpp:111-139 | and preserves what the linked program computes and where control leaves it |
| Graphs.AfterElsewhere | lib/Vistor/TU_Vistor.cpp:111-139 | blocks that were not merged are unchanged |
| Walks.WalkGood | lib/Vistor/TU_Vistor.cpp:111-139 | the walk's merges are legal, stack and finished blocks are untouched, and all that finished blocks lead to is dealt with |
| Walks.WalkReaches | lib/Vistor/TU_Vistor.cpp:111-139 | from empty sets every block reachable afterwards is finished or merged and without exits |
| Walks.WalkMerges | lib/Vistor/TU_Vistor.cpp:111-126 | a block the walk comes to for the first time is merged, and the walk goes no further, if and only if exactly one exit is valid, true or false, and leads to a block without exits |
| Walks.WalkMerged | lib/Vistor/TU_Vistor.cpp:38-126 | it then has its own code up to that exit and the other block's behind it, and no exits; no other block changes |
| Walks.WalkRoot | lib/Vistor/TU_Vistor.cpp:111-139 | the walk merges the block it began with if and only if that held at the beginning |
| Walks.DiamondLeaves | lib/Vistor/TU_Vistor.cpp:127-139 | the false exit is followed first: a graph in which following the true one first would merge more |
| Walks.WalkLeaves | lib/Vistor/TU_Vistor.cpp:111-139 | a finished block can still be merged if and only if it was not and its one successor was |
| Walks.ChainLeaves | lib/Vistor/TU_Vistor.cpp:111-139 | a chain of three blocks in which one walk leaves a merge over |
| Walks.AfterLeaves | lib/Vistor/TU_Vistor.cpp:111-139 | after any run of legal merges a block can be merged if and only if it was not, and it could be before or its one successor was merged |
| Walks.WalkAllLeaves | lib/Vistor/TU_Vistor.cpp:209-219 | a block that walk i finished can be merged in the end if and only if no walk merged it and walk i or a later one merged its one successor |
| Walks.ForkLeaves | lib/Vistor/TU_Vistor.cpp:209-219 | two entries in front of a chain: the second walk makes the merge the first left over, and two others remain |
| Walks.JoinedDone | lib/Vistor/TU_Vistor.cpp:111-139 | a merged block has no exits for good |
| Walks.WalkAllGood | lib/Vistor/TU_Vistor.cpp:209-219 | walks from all entry blocks make one run of legal merges |
| Walks.WalkAllMeaning | lib/Vistor/TU_Vistor.cpp:209-219 | the whole visitor preserves what the linked program computes and where control leaves it |
| TuVisitors.JoinInto | lib/Vistor/TU_Vistor.cpp:116-124 | on the heap, one merge changes the graph as the value-level merge does and no other block |
| TuVisitors.UnifyOneSuccessor | lib/Vistor/TU_Vistor.cpp:111-139 | terminates on every graph, restores parents, and changes graph and finished exactly as the walk function says |
| TuVisitors.GetAllEntryBlocks | lib/Vistor/TU_Vistor.cpp:6-13 | exactly the blocks without parents, in the order in which they stand |
| TuVisitors.Start | lib/Vistor/TU_Vistor.cpp:209-219 | the graph after the visitor is the one after the walks from the entry blocks; parents lists stay as they were |
| Traversals.ExploredExactly | lib/Vistor/TU_Vistor.cpp:141-151 | exploration from nothing ends with exactly the reachable blocks |
| Traversals.IterAll | lib/Vistor/TU_Vistor.cpp:141-151 | adds only reachable blocks, and everything they lead to |
| Traversals.Cluster | lib/Vistor/TU_Vistor.cpp:171-185 | from an empty record, exactly the reachable addresses |
| Traversals.IterCanBeTu | lib/Vistor/TU_Vistor.cpp:153-169 | parents restored, and the list and the finished blocks grow as the tour of the graph says |
| Traversals.ListedExactly | lib/Vistor/TU_Vistor.cpp:153-169 | from empty sets the list has each reachable block with one valid exit, which is linked, exactly once |
| Traversals.CanBeUnified | lib/Vistor/TU_Vistor.cpp:187-204 | the same for the addresses printed, in the order of the tour |
| Traversals.DiamondTour | lib/Vistor/TU_Vistor.cpp:153-169 | the true exit is followed first: a graph on which the order shows |
| Traversals.QueueDone | lib/Vistor/DisassemblePrintVistor.cpp:15-46 | a queue worked off enumerates the reachable blocks without duplicates |
| Traversals.BreadthFirst | lib/Vistor/DisassemblePrintVistor.cpp:15-46 | the printer visits exactly the reachable blocks, each once, in the order of the first links that lead to them, true exits in front of false ones |
| Settles.SetNextTB | lib/AOT_class/aot_class.cpp:410-423 | sets the link and appends to the target's parents |
| Settles.TBLink | lib/AOT_class/aot_class.cpp:474-498 | links to the block at the exit's x86 address, or to nothing |
| Settles.LinkByOffset | lib/AOT_class/aot_class.cpp:447-497 | with the blocks registered under the segment's beginning plus their own offset, a valid exit is linked to exactly the block whose offset it names, and to none if nothing is registered there |
| Settles.SettleAllTb | lib/AOT_class/aot_class.cpp:500-523 | every valid exit is linked to what is registered under the segment's beginning plus its offset, or to nothing, and parents grow by exactly the incoming links |
| Settles.IncomingCount | lib/AOT_class/aot_class.cpp:410-423 | as a multiset, parents hold a block once per exit that leads here |
| Settles.NoIncoming | lib/Vistor/EntryBlockVistor.cpp:9-13 | entry blocks are exactly those that no link leads to |
| Loads.SettledSound | tools/opt/driver.cpp:79-92 | whenever the driver starts the walk on a segment, all blocks, linked from their own segments' beginnings or still blank, form a graph the walk may start on |
| Segments.JoinSettled | lib/Vistor/TU_Vistor.cpp:38-109 | a merge leaves every block settled: well formed and linked as linking would, or blank |
| Segments.AfterSettled | lib/Vistor/TU_Vistor.cpp:111-139 | so does every run of legal merges |
| Segments.RepairSegment | lib/Vistor/FixBranchVistor.cpp:84-88 | every block of the segment is repaired and no other block changes |
| Segments.RunSegment | tools/opt/driver.cpp:92-93 | the walks and then repair on one segment leave the blocks of all segments settled for the next round, each the walked graph's block or its repair |
| Graphs.PutSound | tools/opt/driver.cpp:79-93 | a block replaced, by one of the same size and exits or where no code was, leaves the graph one that may be walked, at the price of the code it gains |
| Drivers.OpenedSound | tools/opt/driver.cpp:81-83 | opening a segment's blank blocks keeps the graph one that may be walked, and settled |
| Drivers.OpenSegment | tools/opt/driver.cpp:81-83 | linking, relocation loading and disassembly on the heap do exactly that, to the segment's blocks only |
| Drivers.Round | tools/opt/driver.cpp:79-93 | one round of the loop: what it needs holds again for the next segment, whose blocks are as they were |
| Drivers.Drive | tools/opt/driver.cpp:79-93 | all rounds on a file of well-formed blocks with less than 2^32 bytes of code: every walk is legal, every block settled and well formed at the end |
| Loads.EarlyMerge | tools/opt/driver.cpp:79-92 | merging a block of a segment not yet decoded takes nothing from it, the same as merging it later if and only if it has no code |
| Writers.TBWriter.HandleRels | lib/AOTFileWriter/TBWriter.cpp:7-34 | the live relocations are appended to the table and the record gets their first and last index |
| Writers.TBWriter.HandleAssemble | lib/AOTFileWriter/TBWriter.cpp:46-57 | the encoded words follow at the cursor and the record says where and how many |
| Writers.TBWriter.CopyTb | lib/AOTFileWriter/TBWriter.cpp:36-44 | the record is copied with cleared offsets |
| Writers.TBWriter.WriteTbs | lib/AOTFileWriter/TBWriter.cpp:59-75 | the three cursors fill their regions block by block as the image says |
| Writers.TBWriter.HowManyRel | lib/AOT_class/aot_class.cpp:264-271 | counts the live relocations |
| SegmentWriters.WroteSegsSizes | lib/AOT_class/aot_class.cpp:453-472 | the sizes of the regions are the counts times the record sizes, and add up to the bytes counted per segment |
| SegmentWriters.Tiles | lib/AOTFileWriter/SegmentWriter.cpp:38-41 | each region ends where the next begins and the last at how_many_bytes |
| SegmentWriters.OneRun | lib/AOT_class/aot_class.cpp:555-588 | the buffer is one unbroken, disjoint run of records of that size |
| SegmentWriters.WriteToBuf | lib/AOTFileWriter/SegmentWriter.cpp:6-59 | from an empty buffer and any counter value, buffer, header and counter end exactly as the image says |
| Readers.SegmentAt | lib/AOTFileWriter/SegmentWriter.cpp:24-56 | segment record and name are at the offsets the header and the record give |
| Readers.TbRecordAt | lib/AOTFileWriter/TBWriter.cpp:59-75 | each block's record, with code and relocation slices that follow each other without gap |
| Readers.CodeComesBack | lib/AOTFileWriter/TBWriter.cpp:46-57 | reading at the recorded offset yields the block's encoded code |
| Readers.TableComesBack | lib/AOTFileWriter/TBWriter.cpp:18-34 | the table found through the header is all live relocations in order if and only if the process had written no relocation before |
| RoundTrips.BlockComesBack | lib/AOT_class/aot_class.cpp:112-130 | header, segment record, block record, code and relocation slice, read back from the written buffer, rebuild the block without its dead relocations if and only if some relocation was written by then |
| RoundTrips.CleanedSame | lib/Vistor/AddRelsVistor.cpp:3-14 | that block has the same slots, and another round trip changes nothing |
| RoundTrips.CleanedWf | lib/Vistor/AddRelsVistor.cpp:3-14 | and it is well formed |
| Readers.FirstBlockWithoutRels | lib/AOTFileWriter/TBWriter.cpp:33 | a file with one block, without relocations, whose slice runs off the table |

## Left out

- Encoding and decoding of instruction words: `lib/Disassembler/disassembler.cpp` is not part of this model; both are uninterpreted functions.
- Opening, reading and writing files, and every printed trace.
- The `branch_insn` pointer of a branch list entry: no code reads it, so entries are positions.
- The older duplicates `lib/Vistor/PeepHoleOPTVistor.cpp` and `lib/Vistor/vistors.cpp`, and the uncalled `is_reg_killed` and `find_closest_load_target_addr_rel_entry`.
- The driver currently comments out the peephole and tail-removal passes and does not call nop removal; they are modelled as the optimiser they are meant to be.
- A branch that never runs: `any_valid` in `handle_rels` starts out true. The case of `fix_b` for two missing successors never runs either; what follows from that is stated above.
- Freed memory, and the write `addi_node->next = node`, which repeats what the deletions did; `ConstRegSet` clears only half of `regs`, which is harmless because a constant is read only when it is recorded.
- 32-bit wrap-around of positions: well-formedness bounds a block by 2^32 bytes, within which none occurs.
- Record sizes, alignment and padding: sizes are symbolic; a name record stands for its `PATH_MAX` bytes.
- Applying relocations at load time: a relocated instruction, or a branch under a live relocation, does something unknown, except that a relocated B goes to some address.
- Jumps between linked blocks are the loader's: an exit of a linked block is taken to lead to the start of its successor.
- RoundTrips.BlockComesBack: only the first write of a process; a later one does not set the table's offset in the header, so its table does not come back (`TableComesBack`).
