# The OCaml runtime of a kernel, verified

The repository carries the run-time system of OCaml 3.12.1 into an operating system kernel: 64-bit words, no
floats.  This project models the parts of that run-time system that everything else rests on, and proves
what they promise.

- **The compactor** (`compact.c`) works in four passes over one array of words.  It makes every pointer to a block
  part of a chain that starts at the header of the block, reserves a new place for each block, walks the chains
  to store the new addresses, and slides the blocks.  While it works the heap cannot be read as a graph at all;
  afterwards it is the graph it was, and the free ends of the chunks are the free list.  Modules `CompactHeap`,
  `CompactPlace`, `CompactThread`, `CompactChains`, `CompactWeak`, `CompactGraph`, `CompactSlide`, `Compact`,
  `CompactResult`, `CompactFree`.
- **The incremental collector** (`major_gc.c`, and the write barrier and the allocator that go with it) marks
  from a stack that may overflow, while the program goes on writing.  `MajorState`, `MajorActions`, `MajorInv`,
  `MajorMark`, `MajorSteps` and `MajorCollect` are the state machine and its runs, `MajorView` what its steps mean
  for the program; `MajorGC` has the procedures, each of which is such a run.
- **The minor collector** (`minor_gc.c`) copies the young blocks that are in use.  Its list of things to do goes
  through the copies themselves.  `MinorState`, `MinorSteps`, `MinorEnds`, `MinorGC`, `MinorResult`.
- **The free list** (`freelist.c`) hands out and takes back the space of the heap, by next fit or by first fit
  with a table of the greatest sizes; `sweep_slice` and `caml_alloc_shr` work on it.  `FreeHeap`, `FreeTable`,
  `FreeMoves`, `FreeList`, `Sweep`, `Rebuild`.
- **The marshaler** (`extern.c`, `intern.c`) turns a graph of blocks into bytes and back, marking the graph in
  place.  `MarshalGraph`, `MarshalBytes`, `MarshalMirror`, `MarshalClean`, `MarshalSizes`, `Extern`, `Intern`,
  `Marshal`.
- **Comparison, indexes and arithmetic**: structural comparison with a stack of its own (`CompareOrder`,
  `CompareMeaning`, `CompareStack`), the page table (`PageTable`), skip lists and the lists of global roots (`SkipList`,
  `GlobRoots`), 64-bit arithmetic on halves with its printer and its parser (`Int64`, `Int64Text`,
  `TextMeaning`), and arrays of any dimension (`Bigarray`).

Code that works in place is modelled as a class or a method that works in place, proved against functions and
predicates on values; the properties are then proved of these.  `Header`, `Arith`, `Bits` and `Lists` are
shared.  `dafny verify dfyconfig.toml` checks everything.

## Model

| member | source | states |
|---|---|---|
| Compact.Compactor.CompactHeap | packages/mirage-platform/runtime/ocaml/compact.c:156-353 | Four passes over any heap, any roots and any list of weak arrays: every block that a root, a field or a weak array refers to is copied whole to its new place; every root, scanned field, full field of a weak array and link of their list that led into a block leads to the same offset in the copy; every chain is gone.  It fails exactly if the placement does, and never if no kept header is in the last four words of the heap |
| CompactFree.CompactAndRebuild | packages/mirage-platform/runtime/ocaml/compact.c:156-403 | All of compaction: what is in use afterwards are exactly the blocks that were kept, at their new places, and all other words of the chunks are free blocks on an ascending list, none of which touch unless they are too big to be one, or fragments |
| Compact.Compactor.EncodeHeaders | packages/mirage-platform/runtime/ocaml/compact.c:166-188 | Pass 1: exactly the headers are encoded, the free blocks as strings |
| Compact.Compactor.InvertPointerAt | packages/mirage-platform/runtime/ocaml/compact.c:65-117 | One inversion takes the memory threaded by the first i slots to the memory threaded by i + 1, in all cases: not a pointer, first or later pointer to a block or into its middle |
| Compact.Compactor.InvertAll | packages/mirage-platform/runtime/ocaml/compact.c:191-256 | Pass 2: all roots, all scanned fields and the slots of all weak arrays have been threaded, each once |
| Compact.Compactor.InvertWeak | packages/mirage-platform/runtime/ocaml/compact.c:232-254 | The walk over the list of weak arrays, whose headers and links are being threaded under it, ends, and has met each array and each of its full fields once |
| Compact.Compactor.CompactAllocate | packages/mirage-platform/runtime/ocaml/compact.c:136-154 | The chunk and address that the placement function gives, or failure where the source reads past the last chunk |
| Compact.Compactor.RevertInfixChain | packages/mirage-platform/runtime/ocaml/compact.c:298-313 | Walking the inner chain of one infix header stores its new address in exactly its slots, and leads on to the next chain of the block |
| Compact.Compactor.RevertAll | packages/mirage-platform/runtime/ocaml/compact.c:259-327 | Pass 3: every slot has the new address of its target, every header is decoded, kept blocks white and others blue |
| Compact.Compactor.SlideAll | packages/mirage-platform/runtime/ocaml/compact.c:330-353 | Pass 4 reserves the addresses of pass 3 again and moves every kept block there intact |
| CompactSlide.TargetFree | packages/mirage-platform/runtime/ocaml/compact.c:332-350 | The new place of a block has no word in common with a block not yet moved |
| CompactFree.Rebuilt | packages/mirage-platform/runtime/ocaml/compact.c:389-400 | From the headers in memory and the free ends, the list of all that was not kept |
| Rebuild.RebuildFreeList | packages/mirage-platform/runtime/ocaml/compact.c:389-400 | Whatever the blocks and free ends of the chunks are: nothing in the free ends is in use, everything else is as it was, and the list is right |
| Rebuild.MakeFreeBlocks | packages/mirage-platform/runtime/ocaml/freelist.c:508-523 | Words of any number are cut into pieces that are not too big, and all of them are free or fragments; nothing else changes |
| FreeList.FreeList.Reset | packages/mirage-platform/runtime/ocaml/freelist.c:357-373 | An empty list and an empty table, for any heap without free blocks |
| CompactResult.RootPaths | packages/mirage-platform/runtime/ocaml/compact.c:156-353 | From every root, every path through fields and weak arrays leads to the moved value of what it led to before |
| CompactResult.SamePath | packages/mirage-platform/runtime/ocaml/compact.c:156-353 | So it does from every field in use |
| CompactResult.ForwardInjective | packages/mirage-platform/runtime/ocaml/compact.c:156-353 | Different addresses stay different: no sharing is lost or introduced |
| CompactPlace.PlacementPacked | packages/mirage-platform/runtime/ocaml/compact.c:126-154 | For any chunks, the blocks placed fill a prefix of each chunk without gaps or overlaps, each in an earlier chunk than its old place or at or below it in the same chunk |
| CompactPlace.FailsExactlyWhenStuck | packages/mirage-platform/runtime/ocaml/compact.c:141-149 | Placement fails if and only if a block is left when every chunk is full |
| CompactPlace.StuckAtEnd | packages/mirage-platform/runtime/ocaml/compact.c:141-149 | Only a block with its header in the last four words of the last chunk can be that block, and only in a heap with hardly any free space |
| CompactPlace.CrowdedFails | packages/mirage-platform/runtime/ocaml/compact.c:141-149 | It does fail when a kept block is left with at most four words of the heap; in a heap of one chunk exactly then |
| CompactPlace.ClearEnd | packages/mirage-platform/runtime/ocaml/compact.c:141-149 | Without a kept block at the very end of the heap it succeeds |
| CompactPlace.EnoughSlack | packages/mirage-platform/runtime/ocaml/compact.c:126-154 | So it does with four spare words per chunk |
| CompactResult.FullMemoryFails | packages/mirage-platform/runtime/ocaml/compact.c:141-143 | For a chunk of any size, a memory that meets every precondition of the compactor and makes it read past the last chunk |
| MajorCollect.RunKeeps | packages/mirage-platform/runtime/ocaml/major_gc.c:66-336 | Any run of mutator and collector steps, in any order, keeps the invariant of the collector |
| MajorCollect.RunSafe | packages/mirage-platform/runtime/ocaml/major_gc.c:293-336 | After any run, no step frees a block that is reachable |
| MajorCollect.AllMarked | packages/mirage-platform/runtime/ocaml/major_gc.c:131-291 | When marking is done, exactly the blocks to keep are black, all others white |
| MajorCollect.HandOver | packages/mirage-platform/runtime/ocaml/major_gc.c:116-291 | Whatever was reachable when the cycle started, and whatever was allocated since, is black when sweeping begins, whatever the program did meanwhile |
| MajorCollect.CycleFrees | packages/mirage-platform/runtime/ocaml/major_gc.c:116-336 | A whole cycle leaves these blocks and no others, when no finalised value is revived |
| MajorView.StepView | packages/mirage-platform/runtime/ocaml/major_gc.c:66-336 | For every step, what the program sees of it: a store stores, an allocation adds one block with the contents given, a step of the sweeper frees the white block where it is; no other step changes a tag, a field or which blocks there are, and the roots change only where the step says so |
| MajorView.PushMeans | packages/mirage-platform/runtime/ocaml/major_gc.c:66-91 | A push colors one block gray and puts it on top, and what a full stack becomes in each case: twice as big, empty, or its lower half, impure whenever gray blocks were dropped |
| MajorView.DarkenMeans | packages/mirage-platform/runtime/ocaml/major_gc.c:93-114 | Of all blocks only the white one pointed to changes, to gray if it has fields to scan and to black if not; its tag and fields stay |
| MajorGC.MarkStepLess | packages/mirage-platform/runtime/ocaml/major_gc.c:131-291 | Every step of marking lowers a lexicographic measure, also after the stack has overflowed |
| MajorGC.CycleLeaves | packages/mirage-platform/runtime/ocaml/major_gc.c:502-511 | A cycle that nothing interrupts leaves the reachable blocks just as they were |
| MajorGC.MajorHeap.Push | packages/mirage-platform/runtime/ocaml/major_gc.c:66-91 | A gray block is stacked; when the stack is full and cannot grow, half of it is dropped and the heap is no longer pure |
| MajorGC.MajorHeap.DarkenValue | packages/mirage-platform/runtime/ocaml/major_gc.c:93-114 | A white block turns gray and is stacked, or black if it has no fields to scan |
| MajorGC.MajorHeap.Modify | packages/mirage-platform/runtime/ocaml/memory.h:128-142 | The field has the new value afterwards, and nothing else that the program sees has changed; as a step of the machine, the old value is darkened while marking |
| MajorGC.MajorHeap.AllocShr | packages/mirage-platform/runtime/ocaml/memory.c:398-455 | One block more, with the tag and fields given, and a root; as a step of the machine, it has the color for the phase |
| MajorGC.MajorHeap.StartCycle | packages/mirage-platform/runtime/ocaml/major_gc.c:116-129 | Darkening the roots is the step that takes the snapshot |
| MajorGC.MajorHeap.MarkSlice | packages/mirage-platform/runtime/ocaml/major_gc.c:131-291 | A slice of any size is a run of mark steps; with work to do it makes progress |
| MajorGC.MajorHeap.SweepSlice | packages/mirage-platform/runtime/ocaml/major_gc.c:293-336 | A slice is a run of sweep steps; with work to do it makes progress |
| MajorGC.MajorHeap.FinishMajorCycle | packages/mirage-platform/runtime/ocaml/major_gc.c:502-511 | It ends, idle, from any state; from an idle one with nothing to finalise the heap is exactly what the roots reach, unchanged |
| MinorGC.MinorHeap.EmptyMinorHeap | packages/mirage-platform/runtime/ocaml/minor_gc.c:232-272 | When the reference table has every major field that holds a young pointer: the young blocks in use, and no others, are copied, each once; roots, old fields and copies hold the moved values; no young pointer is left |
| MinorGC.MinorHeap.OldifyOne | packages/mirage-platform/runtime/ocaml/minor_gc.c:121-197 | What is stored at a location stands for the value asked for, through forwarded, infix and lazy blocks, and the collector's invariant holds with that location filled |
| MinorGC.MinorHeap.Mopup | packages/mirage-platform/runtime/ocaml/minor_gc.c:203-227 | The loop over the list that goes through field 1 of the copies ends, with nothing left to do |
| MinorGC.MinorHeap.UpdateWeak | packages/mirage-platform/runtime/ocaml/minor_gc.c:244-252 | Weak pointers to copied blocks follow them, others to young blocks are erased |
| MinorGC.MinorHeap.Modify | packages/mirage-platform/runtime/ocaml/memory.h:128-142 | A store keeps the reference table complete, and adds to it only for a young value |
| MinorGC.MinorHeap.Initialize | packages/mirage-platform/runtime/ocaml/memory.c:530-539 | The first store into a field does so too, without looking at what was there |
| MinorGC.MinorHeap.AllocShared | packages/mirage-platform/runtime/ocaml/alloc.c:46-66 | A big block whose fields are initialized keeps the reference table complete, whatever they hold |
| MinorGC.MinorHeap.AllocSmall | packages/mirage-platform/runtime/ocaml/memory.h:101-115 | So does a young block, without an entry in the table |
| MinorGC.MinorHeap.ModifyYoung | packages/mirage-platform/runtime/ocaml/memory.h:128-142 | And a store into a young block, without one |
| MinorGC.MinorHeap.SetRoots | packages/mirage-platform/runtime/ocaml/memory.h:184-320 | And any change of the local roots to values that exist |
| MinorEnds.Ends | packages/mirage-platform/runtime/ocaml/minor_gc.c:121-272 | An empty list of things to do and the invariant mean that the collection is complete |
| MinorResult.SameGraph | packages/mirage-platform/runtime/ocaml/minor_gc.c:232-272 | Every path from a value leads to the moved value, or to nothing both before and after |
| MinorResult.BlockMoved | packages/mirage-platform/runtime/ocaml/minor_gc.c:121-197 | Tags, sizes and raw contents are kept, fields are moved |
| MinorResult.SharingKept | packages/mirage-platform/runtime/ocaml/minor_gc.c:121-197 | Two values are the same afterwards if and only if they were before, up to the forwarding blocks that are bypassed |
| MinorResult.ShortCutExactly | packages/mirage-platform/runtime/ocaml/minor_gc.c:166-189 | A forwarding block is bypassed if and only if its content is a value of its own: no lazy or forwarding block, no float, no pointer out of the heap |
| MinorResult.ForceResolved | packages/mirage-platform/runtime/ocaml/minor_gc.c:166-189 | Forcing a value gives the same whether forwarding blocks were bypassed or not |
| MinorResult.ForceMoved | packages/mirage-platform/runtime/ocaml/minor_gc.c:232-272 | Forcing a value after a collection gives what forcing it gave before, moved; suspensions stay suspensions |
| MinorResult.AddressMoved | packages/mirage-platform/runtime/ocaml/minor_gc.c:162-165 | A pointer into the middle of a closure keeps its offset, and what is not a young pointer stays as it is |
| FreeList.FreeList.AllocateBlock | packages/mirage-platform/runtime/ocaml/freelist.c:115-145 | In all three cases: heap, list and free size after taking the end of a free block, and which table entry is affected |
| FreeList.FreeList.AllocateNextFit | packages/mirage-platform/runtime/ocaml/freelist.c:151-184 | The first free block after the last place that is big enough, going around once, and the place is then before it; NULL if and only if there is none, and the place stays |
| FreeList.FreeList.AllocateFirstFit | packages/mirage-platform/runtime/ocaml/freelist.c:186-330 | The lowest free block that is big enough; NULL if and only if there is none; the table stays right while there are fewer maxima than it has room for |
| FreeList.FreeList.Truncate | packages/mirage-platform/runtime/ocaml/freelist.c:345-354 | The table still has what it knew of the blocks below the change, and nothing of the others |
| FreeList.FreeList.MergeBlock | packages/mirage-platform/runtime/ocaml/freelist.c:377-451 | The chunks stay tiled and the list the ascending list of the free blocks, with the block merged with the fragment before it and with its free neighbours unless that is too big; what is left is on the list or is the fragment that is remembered; only free space changes |
| FreeList.FreeList.AddBlocks | packages/mirage-platform/runtime/ocaml/freelist.c:464-499 | A new chunk of one block takes its place in the list, at the end or in the middle, and the table serves the allocation that asked for it |
| FreeMoves.TakeOk | packages/mirage-platform/runtime/ocaml/freelist.c:115-145 | Taking from a free block keeps tiling and list, and keeps free blocks apart if and only if it does not cut a block that was too big to be merged |
| FreeMoves.TakeSeparated | packages/mirage-platform/runtime/ocaml/freelist.c:115-145 | The same condition for an allocation of w words |
| FreeMoves.SmallApart | packages/mirage-platform/runtime/ocaml/freelist.c:377-451 | When no chunk is bigger than a block may be, being apart means that no two free blocks touch |
| FreeMoves.CutLeavesTouching | packages/mirage-platform/runtime/ocaml/freelist.c:115-145 | For every greatest block size from 5 on, a first-fit allocation after which two free blocks touch that could be one |
| FreeTable.TableFinds | packages/mirage-platform/runtime/ocaml/freelist.c:187-197 | The first table entry that is big enough is the first block that is |
| Sweep.Sweeper.SweepSlice | packages/mirage-platform/runtime/ocaml/major_gc.c:293-336 | Any slice keeps heap, list, table and merge point right, leaves exactly the surviving blocks with their sizes, lets no two free blocks touch that did not, and makes progress |
| Sweep.Sweeper.AllocShr | packages/mirage-platform/runtime/ocaml/memory.c:411-455 | In every phase: NULL exactly if the size is too big or nothing fits and the heap cannot grow; else a new block of the color that the sweeper will respect, and no surviving block is lost; a tidy heap stays tidy |
| Sweep.Sweeper.StartSweep | packages/mirage-platform/runtime/ocaml/major_gc.c:273-284 | The sweeper begins with the first chunk and nothing has been lost |
| Sweep.Sweeper.Blacken | packages/mirage-platform/runtime/ocaml/major_gc.c:131-291 | Marking a block changes nothing for the free list |
| Sweep.Sweeper.Extend | packages/mirage-platform/runtime/ocaml/memory.c:265-353 | After an extension the allocation that failed will succeed |
| Sweep.MergedLive | packages/mirage-platform/runtime/ocaml/freelist.c:377-451 | Merging a white block frees that block and no other |
| Sweep.TakenLive | packages/mirage-platform/runtime/ocaml/memory.c:411-455 | Allocating adds exactly the new block to the survivors |
| Extern.Writer.ExternValue | packages/mirage-platform/runtime/ocaml/extern.c:465-511 | However it ends, every header and field of the heap is as it was; when it succeeds, the chain of output blocks is the marshaled form of the graph with the right length and sizes in its header; each error has its cause |
| Extern.MarshaledBytes | packages/mirage-platform/runtime/ocaml/extern.c:465-511 | The bytes of the whole output, for an integer and for a string: magic number, length, objects, sizes, and the code |
| Extern.Writer.ExternRec | packages/mirage-platform/runtime/ocaml/extern.c:297-460 | The walk over any graph with sharing and cycles writes the tokens of the visit, numbers the blocks in its order, counts objects and words, and marks exactly the blocks it numbered |
| Extern.Writer.RecordLocation | packages/mirage-platform/runtime/ocaml/extern.c:108-128 | The next number goes into the block, what was there into the trail |
| Extern.Writer.ReplayTrail | packages/mirage-platform/runtime/ocaml/extern.c:79-103 | Replaying the trail restores the heap |
| Intern.Reader.InternRec | packages/mirage-platform/runtime/ocaml/intern.c:122-339 | On the bytes of a visit: it reads all of them, builds exactly the blocks described at the places the numbering gives them, and touches nothing else |
| Intern.Reader.Alloc | packages/mirage-platform/runtime/ocaml/intern.c:341-382 | A fresh area of the size that the header announced |
| Marshal.StringThere | packages/mirage-platform/runtime/ocaml/intern.c:165-174 | The padding of a string gives back its length and its bytes, for every length |
| MarshalBytes.DecodeEncode | packages/mirage-platform/runtime/ocaml/intern.c:122-260 | Every token that fits its code is read back as itself, whatever follows |
| MarshalBytes.IntBytes | packages/mirage-platform/runtime/ocaml/extern.c:301-309 | The bytes of small integers, at both sides of every limit |
| MarshalBytes.LongIntBytes | packages/mirage-platform/runtime/ocaml/extern.c:306-316 | Those of integers of 32 and 64 bits |
| MarshalBytes.BlkBytes | packages/mirage-platform/runtime/ocaml/extern.c:334-341 | Those of block headers, with size, color and tag in their places |
| MarshalBytes.SharedBytes | packages/mirage-platform/runtime/ocaml/extern.c:343-353 | Those of the offsets of shared blocks |
| MarshalBytes.StrBytes | packages/mirage-platform/runtime/ocaml/extern.c:358-366 | Those of strings at the limits of their codes |
| MarshalBytes.CustomBytes | packages/mirage-platform/runtime/ocaml/extern.c:409-419 | Those of the custom blocks of int32 and int64, with their identifiers |
| MarshalBytes.NativeBytes | packages/mirage-platform/runtime/ocaml/ints.c:721-739 | Those of native integers, at the limits of the shorter form |
| MarshalMirror.VisitFaithful | packages/mirage-platform/runtime/ocaml/extern.c:297-460 | The tokens describe the graph that was visited, if and only if no forwarding block was confused |
| MarshalGraph.BypassedExactly | packages/mirage-platform/runtime/ocaml/extern.c:321-332 | A forwarding block is bypassed if and only if its content is a value of its own: no lazy or forwarding block, no float, no pointer out of the heap |
| MarshalGraph.BypassForce | packages/mirage-platform/runtime/ocaml/extern.c:321-332 | Forcing a value gives the same whether forwarding blocks were bypassed or not |
| MarshalClean.CleanExactly | packages/mirage-platform/runtime/ocaml/extern.c:321-351 | One is confused if and only if the graph has a kept forwarding block, at an odd place of the depth-first order, with two references to it |
| MarshalSizes.NothingTruncated | packages/mirage-platform/runtime/ocaml/extern.c:247-292 | Below 2^32 bytes in all, no length, offset or header is cut off by its code |
| MarshalSizes.SizesFit | packages/mirage-platform/runtime/ocaml/extern.c:367-420 | The words counted, of 8 bytes and of 4, are the fewest that hold a string with the end of its padding, and exactly those that hold the data of a custom block |
| Marshal.RebuiltExactly | packages/mirage-platform/runtime/ocaml/intern.c:122-339 | The blocks built are the graph visited if and only if nothing was confused |
| Marshal.InputVal | packages/mirage-platform/runtime/ocaml/intern.c:460-485 | Reading builds exactly as many objects and words as the writer announced; the graph is isomorphic to the one written if and only if nothing was confusing |
| Marshal.RoundTrip | packages/mirage-platform/runtime/ocaml/extern.c:545-567 | Writing and reading give back an isomorphic graph, with its sharing and cycles, exactly if nothing is confusing, and always if no forwarding block is kept |
| Marshal.SharedLazyIsConfused | packages/mirage-platform/runtime/ocaml/extern.c:321-351 | A pair of twice the same lazy value: the second component comes back as an integer |
| CompareOrder.ByStructure | packages/mirage-platform/runtime/ocaml/compare.c:106-253 | Without the shortcut the answer is that of the order on structures |
| CompareOrder.Shortcut | packages/mirage-platform/runtime/ocaml/compare.c:112 | The shortcut for equal pointers changes no answer |
| CompareOrder.EqualToItself | packages/mirage-platform/runtime/ocaml/compare.c:106-253 | A value is equal to itself if and only if it has no function, no abstract value and no forwarding block that leads out of the heap |
| CompareOrder.TotalOrder | packages/mirage-platform/runtime/ocaml/compare.c:106-253 | On the other values comparison is antisymmetric and transitive, and zero exactly for equal structures |
| CompareMeaning.OrderMeaning | packages/mirage-platform/runtime/ocaml/compare.c:106-253 | The order on structures, said without the function that computes it: integers, then pointers out of the heap, then blocks by tag, strings as in a dictionary, blocks by size and then by the first field that differs; an answer is negative if and only if the left one precedes the right one |
| CompareMeaning.BytesMeaning | packages/mirage-platform/runtime/ocaml/compare.c:146-161 | Two strings: negative if and only if the left one has ended or has the smaller byte where they differ first |
| CompareMeaning.FailsExactly | packages/mirage-platform/runtime/ocaml/compare.c:189-238 | An exception, and which, if and only if the first fields that are not equal are two closures, two abstract blocks or custom blocks without a comparison function |
| CompareOrder.AgreesExactly | packages/mirage-platform/runtime/ocaml/compare.c:106-253 | For any values with all their parts: total comparison is the order on structures, up to the size of the answers, if and only if no forwarding block leads out of the heap and every pointer out of the heap is below all blocks and above all forwarding blocks that lead to an integer |
| CompareOrder.TotalBeside | packages/mirage-platform/runtime/ocaml/compare.c:106-253 | Then it is a total order of structures, pointers out of the heap included |
| CompareOrder.NeverUnordered | packages/mirage-platform/runtime/ocaml/compare.c:98-104 | Without floats no answer is the one for unordered values, whatever the values lead to |
| CompareOrder.OutNotReflexive | packages/mirage-platform/runtime/ocaml/compare.c:134-141 | A value that differs from itself |
| CompareOrder.OutNotTransitive | packages/mirage-platform/runtime/ocaml/compare.c:134-141 | Three values in a cycle |
| CompareStack.Comparer.CompareVal | packages/mirage-platform/runtime/ocaml/compare.c:106-253 | The loop with its stack gives the answer of the recursive comparison, or runs out of stack, which takes a value that high |
| CompareStack.Comparer.ResizeStack | packages/mirage-platform/runtime/ocaml/compare.c:71-91 | The stack doubles and keeps its items, or it fails for its limit or for lack of memory |
| CompareStack.Comparer.CompareTotal | packages/mirage-platform/runtime/ocaml/compare.c:255-266 | The sign of the recursive comparison, which is that of the order on structures where nothing is out of the heap, and the stack back at its initial one |
| CompareStack.Comparer.Equal | packages/mirage-platform/runtime/ocaml/compare.c:268-273 | True exactly for the answer 0; it raises only for what cannot be compared or for lack of stack |
| CompareStack.Comparer.NotEqual | packages/mirage-platform/runtime/ocaml/compare.c:275-280 | Its negation |
| CompareStack.Comparer.LessThan | packages/mirage-platform/runtime/ocaml/compare.c:282-287 | True exactly for negative answers, of which none is the one for unordered values |
| CompareStack.Comparer.LessEqual | packages/mirage-platform/runtime/ocaml/compare.c:289-294 | True exactly for answers that are not positive |
| CompareStack.Comparer.GreaterThan | packages/mirage-platform/runtime/ocaml/compare.c:296-301 | True exactly for positive answers |
| CompareStack.Comparer.GreaterEqual | packages/mirage-platform/runtime/ocaml/compare.c:303-308 | True exactly for answers that are not negative |
| CompareStack.TestsMean | packages/mirage-platform/runtime/ocaml/compare.c:268-308 | For values without functions, abstract values and pointers out of the heap, the answer tested is 0 exactly for equal structures, negative exactly if the left structure precedes the right one, and positive exactly if the right one precedes the left one |
| CompareStack.RaisesExactly | packages/mirage-platform/runtime/ocaml/compare.c:106-253 | With functions and abstract values too: a comparison raises an exception, and which, exactly if the first parts that are not equal cannot be compared |
| PageTable.PageTable.constructor | packages/mirage-platform/runtime/ocaml/memory.c:92-110 | An empty table of two to four times as many entries as pages |
| PageTable.PageTable.Lookup | packages/mirage-platform/runtime/ocaml/memory.c:76-90 | Probing ends, with the flags of the page in the map, or 0 |
| PageTable.PageTable.Modify | packages/mirage-platform/runtime/ocaml/memory.c:146-171 | The map changes at that page only, as the two masks say; a table that cannot grow is left as it was |
| PageTable.PageTable.Resize | packages/mirage-platform/runtime/ocaml/memory.c:112-144 | Rehashing keeps the map |
| PageTable.PageTable.ModifyRange | packages/mirage-platform/runtime/ocaml/memory.c:205-225 | Exactly the pages of the range change; on failure, exactly those before the one that failed |
| PageTable.HashBelow | packages/mirage-platform/runtime/ocaml/memory.c:66-74 | The Fibonacci hash is an index of the table |
| PageTable.AddedIs | packages/mirage-platform/runtime/ocaml/memory.c:205-214 | Added pages have the flag, and other flags and pages are untouched |
| PageTable.RemovedIs | packages/mirage-platform/runtime/ocaml/memory.c:216-225 | Removed pages do not have the flag, whatever they had, and other flags and pages are untouched |
| PageTable.FlagsMeaning | packages/mirage-platform/runtime/ocaml/memory.c:163-165 | What the two masks do to each flag, also when they overlap |
| PageTable.AddThenRemove | packages/mirage-platform/runtime/ocaml/memory.c:205-225 | Removing undoes adding |
| SkipList.RandomLevel | packages/mirage-platform/runtime/ocaml/globroots.c:50-64 | For every seed: the level is the number of pairs of high bits that are set, so that one seed in 4^n gives level n or more, and it is below NUM_LEVELS |
| SkipList.RootList.Insert | packages/mirage-platform/runtime/ocaml/globroots.c:68-103 | The set grows by the one root, which is on the levels up to the random one; all levels stay ascending and nested; nothing happens for a member |
| SkipList.RootList.Delete | packages/mirage-platform/runtime/ocaml/globroots.c:107-139 | The set loses the one root; nothing happens for a stranger |
| SkipList.RootList.Iterate | packages/mirage-platform/runtime/ocaml/globroots.c:143-151 | Every member is visited once, in order of address |
| SkipList.RootList.Empty | packages/mirage-platform/runtime/ocaml/globroots.c:155-167 | The empty set |
| GlobRoots.GlobalRoots.Register | packages/mirage-platform/runtime/ocaml/globroots.c:195-205 | The root goes into the list of its generation, and no root is lost |
| GlobRoots.GlobalRoots.Remove | packages/mirage-platform/runtime/ocaml/globroots.c:209-218 | No other root is lost; the root stays in a list exactly if it was in the one that the present value does not belong to |
| GlobRoots.GlobalRoots.Modify | packages/mirage-platform/runtime/ocaml/globroots.c:222-258 | What the change does to both lists; no root is lost, except exactly when a root in no list changes from a block outside both heaps to one inside |
| GlobRoots.GlobalRoots.ScanYoung | packages/mirage-platform/runtime/ocaml/globroots.c:271-283 | The action has been applied to the ordinary roots and to those of the young list, and to no others; every generational root is updated; the young list is empty, and its members are in the old one |
| GlobRoots.GlobalRoots.RegisterPlain | packages/mirage-platform/runtime/ocaml/globroots.c:180-184 | The list of ordinary roots grows by the one root |
| GlobRoots.GlobalRoots.RemovePlain | packages/mirage-platform/runtime/ocaml/globroots.c:188-191 | It loses the one root |
| GlobRoots.LoseRoot | packages/mirage-platform/runtime/ocaml/globroots.c:222-258 | A run that loses a root |
| GlobRoots.KeepRemoved | packages/mirage-platform/runtime/ocaml/globroots.c:209-218 | A run after which the young list has a root that was removed |
| Int64.MulIs | packages/mirage-platform/runtime/ocaml/int64_emul.h:83-96 | The product modulo 2^64 |
| Int64.LslIs | packages/mirage-platform/runtime/ocaml/int64_emul.h:129-142 | Shifting left is multiplying by a power of two modulo 2^64, for every count |
| Int64.LsrIs | packages/mirage-platform/runtime/ocaml/int64_emul.h:144-157 | Shifting right is dividing by it |
| Int64.AsrIs | packages/mirage-platform/runtime/ocaml/int64_emul.h:159-172 | The arithmetic shift divides the signed number, rounding down |
| Int64.UDivMod | packages/mirage-platform/runtime/ocaml/int64_emul.h:179-203 | The loops end, with quotient times divisor plus remainder equal to the dividend and the remainder below the divisor |
| Int64.Div | packages/mirage-platform/runtime/ocaml/int64_emul.h:205-216 | The quotient rounded towards zero, modulo 2^64 |
| Int64.Mod | packages/mirage-platform/runtime/ocaml/int64_emul.h:218-229 | The remainder of that division |
| Int64.TruncModIs | packages/mirage-platform/runtime/ocaml/int64_emul.h:218-229 | That remainder is smaller than the divisor and has the sign of the dividend |
| Int64.QuotientFits | packages/mirage-platform/runtime/ocaml/int64_emul.h:205-216 | Only min_int over -1 does not fit |
| Int64.Int64Div | packages/mirage-platform/runtime/ocaml/ints.c:544-553 | Division raises for zero, is exact otherwise, and gives min_int for min_int over -1 |
| Int64.Int64Mod | packages/mirage-platform/runtime/ocaml/ints.c:555-567 | So for the remainder |
| Int64Text.Int64OfString | packages/mirage-platform/runtime/ocaml/ints.c:648-682 | Accepted are exactly the digit strings of the base, with underscores after the first digit, whose value is in the range for the sign and the base; the tests for wrap-around miss nothing |
| TextMeaning.PrefixRead | packages/mirage-platform/runtime/ocaml/ints.c:120-145 | With 0x, 0o or 0b, in either case and with or without a minus sign: the digits are of base 16, 8 or 2, and all numbers of 64 bits are accepted |
| TextMeaning.DecimalRead | packages/mirage-platform/runtime/ocaml/ints.c:648-682 | Without a prefix: base 10, and exactly the signed range |
| TextMeaning.UnderscoreRead | packages/mirage-platform/runtime/ocaml/ints.c:664-668 | An underscore behind the first digit changes neither acceptance nor meaning; before it, it is refused |
| Int64Text.Format | packages/mirage-platform/runtime/ocaml/int64_format.h:22-105 | The loops that fill the buffers print sign, prefix, padding and digits as the format asks |
| TextMeaning.FormatMeaning | packages/mirage-platform/runtime/ocaml/int64_format.h:22-105 | What every format without a width prints, for any flags and every conversion: the sign or the last of the flags + and space, the prefix, and the digits |
| TextMeaning.TextFilled | packages/mirage-platform/runtime/ocaml/int64_format.h:82-104 | With a width, a shorter text is filled up to it: behind it, or with spaces before it, or with zeros behind sign and prefix |
| TextMeaning.AtoiDigits | packages/mirage-platform/runtime/ocaml/int64_format.h:54-56 | The width is the number that the digits spell |
| Int64Text.DecimalFormat | packages/mirage-platform/runtime/ocaml/int64_format.h:70-104 | What %d and %u print |
| Int64Text.DecimalBack | packages/mirage-platform/runtime/ocaml/ints.c:648-682 | What %d prints is read back as the number, min_int included |
| Int64Text.HexBack | packages/mirage-platform/runtime/ocaml/ints.c:648-682 | So for %#x and %#X, for every bit pattern |
| TextMeaning.OctalBack | packages/mirage-platform/runtime/ocaml/ints.c:120-145 | What %#o prints is read back as the number if and only if it has one digit |
| Int64Text.UnsignedBack | packages/mirage-platform/runtime/ocaml/ints.c:648-682 | What %u prints is accepted exactly for numbers that are not negative |
| Int64Text.FitsBuffer | packages/mirage-platform/runtime/ocaml/int64_format.h:70-79 | No number has more digits than the buffer has room for |
| Int64Text.WidthPrintsNothing | packages/mirage-platform/runtime/ocaml/int64_format.h:54-56 | A conversion with any flags prints nothing if and only if it has a width |
| Bigarray.Offset | packages/mirage-platform/runtime/ocaml/bigarray_stubs.c:299-321 | In both layouts: fails exactly for an index out of bounds, else the address of the element |
| Bigarray.Strides | packages/mirage-platform/runtime/ocaml/bigarray_stubs.c:299-321 | The lowest index is the first element, and a step along a dimension goes past the elements of all dimensions behind it, or before it in column-major arrays |
| Bigarray.RankUnrank | packages/mirage-platform/runtime/ocaml/bigarray_stubs.c:299-321 | Different indices have different offsets |
| Bigarray.UnrankRank | packages/mirage-platform/runtime/ocaml/bigarray_stubs.c:299-321 | Every number below the product of the dimensions is an offset |
| Bigarray.Slice | packages/mirage-platform/runtime/ocaml/bigarray_stubs.c:1011-1052 | Each failure has its cause; else the base and the dimensions of the slice |
| Bigarray.SliceMeans | packages/mirage-platform/runtime/ocaml/bigarray_stubs.c:1011-1052 | An element of the slice is the element at the joined index |
| Bigarray.SliceInBounds | packages/mirage-platform/runtime/ocaml/bigarray_stubs.c:1011-1052 | An index is in bounds of the slice if and only if the joined index is |
| Bigarray.SliceTwice | packages/mirage-platform/runtime/ocaml/bigarray_stubs.c:1011-1052 | A slice of a slice is the slice for both indices |
| Bigarray.Sub | packages/mirage-platform/runtime/ocaml/bigarray_stubs.c:1056-1095 | It succeeds exactly if the range is within the dimension that changes |
| Bigarray.SubMeans | packages/mirage-platform/runtime/ocaml/bigarray_stubs.c:1056-1095 | An element of the sub-array is the element at the shifted index |
| Bigarray.SubBegins | packages/mirage-platform/runtime/ocaml/bigarray_stubs.c:1067-1084 | Index 0, or 1 in a column-major array, of the sub-array means the offset given |
| Bigarray.SubInBounds | packages/mirage-platform/runtime/ocaml/bigarray_stubs.c:1056-1095 | Which is in bounds |
| Bigarray.SubTwice | packages/mirage-platform/runtime/ocaml/bigarray_stubs.c:1056-1095 | The shifts of nested sub-arrays add up |
| Bigarray.MulOv | packages/mirage-platform/runtime/ocaml/bigarray_stubs.c:149-185 | The product modulo the word, and the flag is set if and only if it does not fit in one |
| Bigarray.ByteSize | packages/mirage-platform/runtime/ocaml/bigarray_stubs.c:216-224 | No overflow exactly if all the partial products fit |
| Bigarray.FitsAll | packages/mirage-platform/runtime/ocaml/bigarray_stubs.c:216-224 | When no dimension is 0, that is exactly when the size fits |
| Bigarray.EmptyRefused | packages/mirage-platform/runtime/ocaml/bigarray_stubs.c:216-224 | An array without elements that is refused |

## Findings

Where the code does not do what it promises, the model follows the code; each case has an input that shows it
and the condition under which all is well.

- `compact.c:141-143` reads the size of the chunk after the last one when all are nearly full
  (`CompactResult.FullMemoryFails`).  It happens exactly when a block is left to place at that point
  (`CompactPlace.FailsExactlyWhenStuck`); a caller is safe when no block that is kept has its header in the last
  four words of the heap (`CompactPlace.ClearEnd`, and the contract of `CompactHeap`).
- `extern.c:321-351` looks through a forwarding block before it looks whether the block is marked, and a mark
  has the number of the block in the field looked at.  An odd number is taken for an integer, so a lazy value
  met twice may come back as one (`Marshal.SharedLazyIsConfused`); exactly when is `MarshalClean.CleanExactly`.
- `int64_format.h:54-56` steps over the conversion letter after a width: "%8d" prints nothing
  (`Int64Text.WidthPrintsNothing`).
- `int64_format.h:95` prints the prefix "0" for "%#o", but `ints.c:120-145` takes only "0o" for octal: what is
  printed is read back as a decimal number (`TextMeaning.OctalBack`: it is right exactly for numbers of one digit).
- `globroots.c:222-258` forgets a root that changes from a block outside both heaps to one inside
  (`GlobRoots.LoseRoot`); exactly when is the contract of `Modify`.  `globroots.c:209-218` looks in one list
  only, so that a removed root may stay in the other (`GlobRoots.KeepRemoved`; exactly when is the contract of
  `Remove`).
- `compare.c:134-141` compares addresses when one of the two is outside the heap, even if the other is a
  forwarding block or is compared by contents elsewhere.  A value may differ from itself
  (`CompareOrder.OutNotReflexive`; exactly when is `EqualToItself`) and the order may have cycles
  (`OutNotTransitive`); exactly when it is the order on structures is `AgreesExactly`, and then it is total
  (`TotalBeside`, `TotalOrder`).
- `bigarray_stubs.c:216-224` may refuse an array without elements for the product of its other dimensions
  (`Bigarray.EmptyRefused`, `FitsAll`).
- `freelist.c:115-145`: after a merge that was not made because the result would be too big, an allocation from
  the upper block may leave two free blocks that touch and could be one (`FreeMoves.CutLeavesTouching`; exactly
  when is `TakeSeparated`).  It cannot happen while every chunk is smaller than the greatest block.

## Left out

- CompactFree.CompactAndRebuild: the headers and links of the free blocks are in the maps of the free list, not in
  the array of words; the heap is not shrunk (`compact.c:355-387`), which in this port does nothing; when to
  compact is not modelled.
- CompactPlace.CrowdedFails: for more than one chunk the condition is sufficient only; the exact one there is
  `FailsExactlyWhenStuck`, and `ClearEnd` is what a caller can see.
- MajorGC.MajorHeap.AllocShr: the free address comes from the caller; which block is taken is in `FreeList` and
  `Sweep`.  The heap is one range of addresses, not a list of chunks.
- MajorGC.MajorHeap.MarkSlice: the weak arrays are not cleaned, only passed over; forwarding blocks and infix
  pointers are not followed specially; how much work a slice does is up to the caller.
- MajorGC.MajorHeap.DarkenValue: an infix pointer does not lead to the block that holds it.
- MajorGC.MajorHeap.SweepSlice: a freed block leaves the map; merging is in `FreeList` and `Sweep`, and custom
  blocks are not finalised.
- MajorCollect.CycleFrees: finalisation functions that revive values are excluded here; `RunSafe` and `HandOver`
  include them.
- MinorGC.MinorHeap.EmptyMinorHeap: it does not run the finalisers' updates, and `caml_alloc_shr` always succeeds.
- FreeList.FreeList.AllocateFirstFit: the table is kept right while the list has fewer left-to-right maxima than
  the table has room for; with a full table the search is still first fit, but the table may miss maxima later.
- FreeList.FreeList.AddBlocks: a new chunk is one block; chains of blocks from bigger chunks, of which the source
  counts only the first, are not modelled.
- Marshal.RoundTrip: integers, strings, blocks that are not closures, and the custom blocks of int32, int64 and
  nativeint.  No closures, code pointers, infix pointers, floats or bigarrays; sharing is always on.
- Intern.Reader.InternRec: the input is the output of the writer; ill-formed input is not modelled.
- Intern.Reader.Alloc: the area is a block of its own; its color and the branch for sizes above Max_wosize are not
  modelled.
- Extern.Writer.ExternRec: the last field is a call here and a jump in the source.
- CompareStack.Comparer.CompareVal: a custom block holds the number that its comparison function reads, as those of
  int32, int64 and nativeint do; the comparison of bigarrays is not modelled.
- CompareOrder.EqualToItself: for values that end; on a cyclic value the source does not end or runs out of stack.
- Int64.UDivMod: not for a divisor that is zero, for which the source does not end; its callers test for that.
- The bitwise operations and the conversions from and to doubles of `int64_emul.h`, and `parse_format` of `ints.c`.
- Int64Text.Format: after a width at the end of the string, the model stops where the source steps past the end.
- PageTable.PageTable.Lookup: an entry is a page number with eight bits of flags; the table of 32-bit machines is
  not modelled.
- SkipList.RootList.Insert: a node is named by its root; nodes are not allocated or freed.
- GlobRoots.GlobalRoots.Remove: the root may stay in the list of the other generation, as in the source.
- Bigarray.ByteSize: proxies, reference counts and the functions that get and set elements are not modelled.
- Channels, signals, finalisers, threads and everything else that does input or output.
